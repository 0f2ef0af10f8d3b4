# Verification of the feed service

A feed service polls RSS, Atom and JSON feeds and serves merged timelines from SQLite. This project models its
four hard parts in Dafny and proves what they promise:

1. **The lease table** (`internal/store/store.go`, `internal/poll/poller.go`). Rows of `fetch_state` are leases:
   requests, claims, fetches, pruning and eviction all step over the same three tables. `Store` is the store as a
   class over three maps; `Statements` says what each statement leaves in every column; `Protocol` is the step system of everyone who uses it; `Leases`, `Claims`,
   `Requests` and `Starvation` are theorems about all of its runs; `Poller` is one fetch as a program; `Refinement` and `Poller`
   tie the methods to the steps.
2. **What a feed keeps** (`Retention`, `Repoll`) and **what a request sees** (`Dedupe`, `DedupeTheorems`,
   `Timeline`).
3. **The numbers in between**: polling intervals and backoff with int64 wrap-around (`Intervals`), and the
   counters they are computed from as folds of the fetch history (`History`).
4. **Concurrency inside the poller**: one request at a time per host with a gap (`HostLimiter`), and the bounded
   worker pool with its shutdown (`WorkerPool`).

`Query` and `Canonical` prove that the rebuilt query of a canonical URL is a normal form.

## How it is modelled

- `Rows` has the tables and one function per SQL statement. Every store method is proved equal to those
  functions, and the steps of `Protocol` are made of the same functions, so the theorems about runs speak of what
  the methods do. What the functions themselves mean is stated apart from them, in terms of columns and figures
  alone: in `Statements`, and in the lemmas of the other modules whose names end in `Means`. A step is one statement or one transaction: with a single connection these are atomic, and
  anything may happen between two of them. `Tables.Valid` is the schema: unique urls, unique (feed, key), both
  foreign keys; cascading deletes are part of `Evict`.
- Instants are integer nanoseconds, rows keep whole seconds (`Unix` rounds down), and a 64-bit product wraps
  around. A negative `LIMIT` is no limit. The due query sorts by second only, so ties come in any order:
  `DuePick` admits every answer SQLite may give. A new row's id is one more than the largest; in `Protocol` it is
  any id not in use. A read whose answer the protocol never uses is not a step: the row that EnsureFeed reads back at
  its end, and what a page is made of.
- Hashing (SHA-256), title normalization and the random number of the jitter are parameters; the jitter is exact
  real arithmetic.
- `FetchOne` takes the client's reply, the parsed document in it, and which of its transactions the database fails
  as arguments.

## What the proofs found

- **Records do not check who holds the lease.** Exclusivity therefore rests on two assumptions, both stated in
  `Leases.Disciplined`: every fetch ends before its own lock runs out, and a row id is not reused while a fetch of
  the deleted feed is live. They are exact: in every run all leases are held if and only if no step claims the
  feed of a fetch that has outlived its lock and no step gives a live fetch's row id to another feed
  (`Leases.LeasesExactly`). Breaking either puts two fetches on one feed (`Claims.OverstayedIsDoubled`,
  `Claims.ReusedIdIsDoubled`; in the second case each is within its own lock). The code enforces neither: by
  default a batch of 32 is locked for 60 seconds at once and worked off by 4 workers, and SQLite hands out the
  largest id again once its row is gone.
- **A request can lose the feed it asks for.** Registration is two statements without a transaction. When the url
  is known already but has not been requested for long, an eviction between the two deletes the feed, and the
  second statement touches no row; the request then fails when it reads the row back, and the feed and its
  headlines are gone although the request arrived in time (`Requests.RequestCanBeLost`). Exactly when this happens
  is `Requests.RequestKeptIff`; a request that registers a new url cannot lose it (`Requests.CreatedKept`).
- **A registration that breaks off between its two statements** leaves the feed without a state row: it is never
  polled, no later request repairs it, and it is shown as warming (`Leases.AbortForgets`, `Leases.ForgottenStays`).
- **Retry-After can be cut short.** A 404 or 410 under the daily pin waits 24 hours whatever it asks for: by default
  the fifth failure, a 410 that asks for two days, is tried again after one (`Intervals.PinCutsRetryAfter`). Otherwise
  jitter is applied after the maximum, so a Retry-After that wins can lose a tenth. When exactly the scheduled wait
  covers it is `Intervals.HonoursRetryAfter`. All this is about the schedule only: a recorded failure leaves the feed
  free to be claimed on demand at once (`Claims.FailureReleases`), and a read of a feed without a good fetch so
  far does that, whatever was asked for. A reply whose body cannot be read, or a document that does not parse, counts without
  its Retry-After.
- **The backoff cap can be exceeded**, for the same reason by up to a tenth: by default a feed polled every two hours
  waits longer than the cap after its second failure for a quarter of all jitters (`Intervals.CapExceeded`; exactly
  when, `Intervals.WithinCapIff`).
- **Doublings overflow** for maxima and caps above 2^62 ns, and only then (`Intervals.NextIntervalClosedForm`,
  `Intervals.DelayClosedFormIff`).
- **A 304 and a quiet 200 schedule alike only for whole seconds** (`Intervals.ScheduleAgreement`): the stored
  interval loses its fraction, and below one second it is not stored at all.
- **Polling the same document again is not always a fixpoint.** The survivors stay if and only if no entry that is
  no longer stored finds a place at the date the later poll gives it (`Repoll.SecondPollIff`). This fails in two
  ways. With the same dates as before: an entry comes back under a larger row id and displaces a survivor with
  the same date, and then only (`Repoll.RepollFixpoint`). And a later poll may give other dates, as an entry
  without one, or with one more than a day ahead, gets the time of the poll: then it can pass a survivor that was
  newer (`Repoll.DateStaysIff`, `Repoll.RedatedDisplaces`).
- **A hash can lose all its copies**, although the comment on `dedupe` says the earliest is kept: a hash is
  marked as seen before the title test (`DedupeTheorems.HashClassCanBeLost`; exactly when,
  `DedupeTheorems.HashKept`).
- **A failed upsert records nothing**, and neither does a failed record: the lock stays until it runs out, with no
  error counted (`Poller.FetchOne`; in the protocol such a fetch is abandoned).
- The daily pin for 404 and 410 counts failures of every kind, not only those two (`History.PinnedIff`).

## Model

| member | source | states |
|---|---|---|
| Leases.LeaseExclusive | internal/store/store.go:233-349 | in every interleaving in which fetches end before their locks and ids are not reused, no two live fetches work on one feed, and each live fetch's row is still what its claim read |
| Leases.LeasesAlways | internal/poll/poller.go:128-225 | the lease invariant, kept by every step, from any state that has it |
| Leases.LeaseStep | internal/store/store.go:233-349 | one step of anyone keeps every lease: claims only take rows no live fetch holds, and no step rewrites a held row but the one that ends its fetch |
| Leases.LeasesIff | internal/store/store.go:233-349 | exactly two kinds of step break a lease: a claim of a feed whose live fetch has outlived its lock, and a registration under the row id of a live fetch |
| Leases.ExclusiveIff | internal/store/store.go:239-281 | from a leased state two live fetches come together on one feed iff the step is a claim of the first kind |
| Leases.LeasesExactly | internal/poll/poller.go:128-225 | in every run all leases are held all the time iff no step is of those two kinds |
| Leases.IntegrityAlways | internal/store/schema.go:6-45 | in every run: unique urls and keys, items and states have a feed, and a feed lacks its state row only between the two statements of its creating call or because that call broke off |
| Leases.IntegrityStep | internal/store/store.go:147-461 | every statement keeps those constraints |
| Leases.RowsFoldHistory | internal/store/store.go:301-349 | in every run fail_count, quiet_polls, etag and last_ok_at of every row are the folds of what was recorded for its feed, whoever recorded it |
| Leases.AbortForgets | internal/store/store.go:147-160 | a creating call that breaks off between its statements leaves a feed without a state row |
| Leases.ForgottenIff | internal/store/store.go:147-160 | there is no other way: a step leaves a feed without a state row and without a call that will make one iff it breaks off its only creating call between the two statements |
| Leases.ForgottenStays | internal/store/store.go:147-168 | and no later step, further requests for it included, ever gives it one while it stays registered |
| Claims.ClaimSeparation | internal/store/store.go:233-297 | without timing assumptions: two successive claims of a feed, by either path, have a record between them or are strictly more than lockFor apart, truncation to seconds notwithstanding |
| Claims.LockRunsOut | internal/store/store.go:233-297 | and not longer: a claimed feed that is neither recorded nor claimed again can be claimed by either path from the second after lockFor ran out, and not before |
| Claims.ClaimDueTakesSoonest | internal/store/store.go:239-266 | at most limit feeds, all eligible; fewer only if none is left; none due later than an eligible one left behind |
| Requests.RequestKeptIff | internal/store/store.go:147-166 | over every run, from its arrival: a request that found its url keeps it registered through every eviction up to arrival + EvictAfter, iff each eviction between its two statements that takes the feed is made good by another request in time; without other requests, iff none of those evictions has a cutoff above the last request |
| Requests.CreatedKept | internal/store/store.go:147-160 | a request that registers its url keeps it so unconditionally, from its first statement on |
| Requests.RequestCanBeLost | internal/store/store.go:161-166 | from every state in which the feed is due for eviction: arrive, find the url, evict, touch no row; the url is gone |
| Requests.RegisteredIff | internal/store/store.go:455-461 | between any two moments a registered url stays registered iff each eviction that takes it is followed by a registration of it |
| Requests.PresentedInRun | internal/api/server.go:247-256 | whenever state rows are read, in any run, warming means never a good fetch and stale means one, but not last |
| Requests.ServedInRun | internal/api/server.go:211-237 | over every run, with anyone stepping between the statements of a request: its feeds are still there, under their ids, when it reads states and when it lists items, and the page is of these feeds only |
| Claims.WantedSurvives | internal/poll/poller.go:116-125 | once the row carries a request at t, the feed survives every eviction run at or before t + EvictAfter |
| Claims.EvictUnwantedMeans | internal/poll/poller.go:116-125 | an eviction step takes exactly the feeds not requested for evictAfter, with what hangs on them, and leaves every other row alone |
| Claims.RequestCounts | internal/store/store.go:161-163 | the second statement of a request for a known url makes it count from its arrival iff the feed is still there, and otherwise changes nothing |
| Claims.RegistrationCounts | internal/store/store.go:148-150 | so does one for a new url, before its state row exists |
| Claims.EvictedResultsInert | internal/poll/poller.go:140-201 | a step of a fetch of an evicted feed, or its prune, changes no table; storing headlines is an error |
| Claims.EvictedStaysInert | internal/poll/poller.go:140-201 | over every run: from its eviction on, as long as its id is not given to another feed, it stays out and nothing done for it, the prune after the record included, changes a table |
| Claims.LiveFetchInert | internal/poll/poller.go:140-201 | while a fetch of it is live, the lease protocol's assumption on ids is enough for that |
| Claims.OnceGoodAlways | internal/store/store.go:311-346 | over every run last_ok_at, once set, is not null again while the feed has its row |
| Claims.PositiveAlways | internal/store/store.go:322-330 | over every run stored intervals stay positive |
| Claims.SameUrlMeansEvicted | internal/store/schema.go:6-15 | two live fetches of one url under the protocol: one of them is for a feed that has been evicted |
| Claims.ReclaimedIff | internal/store/store.go:278-281 | under leases, a live fetch's feed can be claimed again iff its lock lies before the second of the claim, and then both are live |
| Claims.OverstayedIsDoubled | internal/store/store.go:278-281 | so from every leased state: one second after its lock ran out, a live fetch is joined by another |
| Claims.ReusedIdIsDoubled | internal/store/schema.go:6-15 | the id of an evicted feed with a live fetch, given to a new feed, brings two fetches of one feed together, each within its lock |
| Claims.NotModifiedSchedule | internal/poll/poller.go:158-164 | under leases, after a 304 the next poll follows from the stored interval and the quiet run of the history, this poll included |
| Claims.DocumentSchedule | internal/poll/poller.go:184-196 | after a document it follows from the document's ttl and the quiet run, ended by new items |
| Claims.FailureSchedule | internal/poll/poller.go:203-209 | after a failure it follows from the stored interval and the length of the run of failures |
| Claims.GoneForADay | internal/poll/config.go:91-93 | a 404 or 410 that completes GoneAfterFailures of them in a row puts the next poll exactly 24 hours off |
| Starvation.ClaimedInTime | internal/store/store.go:233-274 | no starvation: an overdue feed that stays registered is claimed within floor((queue + lost) / limit) + 1 claims, lost being the fetches that end without a record meanwhile |
| Starvation.QueueDrains | internal/store/store.go:239-266 | while it is passed over, each such claim takes limit out of the queue in front of it, and each lost fetch adds at most one, in every run |
| Starvation.QueueStep | internal/poll/poller.go:159-209 | under the protocol no step adds to the queue in front of an overdue feed but a fetch that breaks off, by one: records reschedule to their own start or later, and late registrations were counted already |
| Starvation.MissShrinks | internal/store/store.go:239-266 | a claim that passes over an eligible feed takes limit feeds that were in front of it |
| Starvation.FinishCallQueue | internal/store/store.go:155-160 | a registration may join the queue, but had been counted as a call in progress |
| Starvation.IntervalNotNegative | internal/poll/config.go:68-85 | under a sane configuration a successful poll never schedules into the past, for every ttl and quiet run |
| Starvation.BackoffNotNegative | internal/poll/config.go:90-110 | nor does a failed one, for every Retry-After and every jitter |
| History.TrailingErrorsAre | internal/store/store.go:343-346 | fail_count is the length of the longest all-error ending of the history |
| History.TrailingErrorsAtLeast | internal/store/store.go:343-346 | fail_count reaches n iff the last n records are errors |
| History.QuietRunIs | internal/store/store.go:307-316 | quiet_polls is the number of good records since the last that brought something; errors do not matter |
| History.LastEtagIs | internal/store/store.go:313 | the etag is the last non-empty one |
| History.LastGoodIs | internal/store/store.go:315 | last_ok_at is the time of the last good record, and null iff there was none |
| History.Presentation | internal/api/server.go:247-256 | warming, stale and fresh exclude each other, leave nothing out, and mean: never good; good once but not last; good last |
| History.PinnedIff | internal/poll/config.go:91-93 | the daily pin applies iff this is a 404 or 410 and the last GoneAfterFailures records are errors, of whatever kind |
| Store.Store.constructor | internal/store/store.go:105-110 | an empty database is valid |
| Store.Store.EnsureFeed | internal/store/store.go:147-168 | registers a new url with a due row or marks a known one as requested, never back in time; all other feeds stay |
| Store.Store.ClaimDue | internal/store/store.go:233-274 | locks a possible answer of the due query and returns each locked feed once, with its row as it stands |
| Store.Store.ClaimFeed | internal/store/store.go:278-297 | locks the feed iff it has an unlocked row, due or not, and nothing else |
| Store.Store.RecordFetchOK | internal/store/store.go:301-334 | the new row and feed in full, non-empty values over old ones; for an evicted feed nothing |
| Store.Store.RecordFetchError | internal/store/store.go:338-349 | one more failure, unlocked, rescheduled, message cut to 500; all other columns stay |
| Store.Store.UpsertItems | internal/store/store.go:353-390 | the new items table, and the number of distinct new keys; an unknown feed rolls back |
| Store.Store.ListItems | internal/store/store.go:401-437 | the newest rows of the given feeds at or after since, in query order |
| Store.Store.PruneItems | internal/store/store.go:445-451 | the items table of the prune, and nothing else changed |
| Store.Store.EvictFeeds | internal/store/store.go:455-461 | deletes exactly the feeds last requested before the cutoff with their rows, and counts them |
| Store.LockRows | internal/store/store.go:261-273 | the claiming loop locks exactly the selected rows and reads each back once |
| Store.InsertRows | internal/store/store.go:370-389 | the insert loop computes the upsert, and its counter the number of distinct new keys |
| Store.Query | internal/store/store.go:415-416 | selecting newest first up to the limit yields the limited order |
| Store.DeleteRows | internal/store/store.go:446-449 | the delete leaves exactly the pruned table |
| Store.NewRow | internal/store/schema.go:7 | a new row id is larger than all in use |
| Store.DuePickExists | internal/store/store.go:240-244 | the due query always has an answer, for every limit |
| Statements.SecondOf | internal/store/store.go:150 | a row keeps the second an instant falls in |
| Statements.SecondsIn | internal/store/store.go:330 | and a duration in whole seconds, cut toward zero |
| Statements.EnsureFeedMeans | internal/store/store.go:147-168 | every column of a new feed, due at once, and of its state row; of a known one only the time of request moves, and never back |
| Statements.InsertFeedMeans | internal/store/store.go:148-150 | the first statement alone, in whatever tables it meets |
| Statements.SecondStatementMeans | internal/store/store.go:155-163 | either second statement alone |
| Statements.ClaimDueMeans | internal/store/store.go:239-272 | a claim takes due feeds without a running lock, locks each up to the second in which lockFor runs out, and changes nothing else |
| Statements.ClaimDueLimit | internal/store/store.go:240-244 | at most limit of them; one left behind is due no earlier than any taken, and found the limit reached |
| Statements.RecordOKMeans | internal/store/store.go:301-334 | all columns of both rows after a good record, and all other rows as they were |
| Statements.RecordErrorMeans | internal/store/store.go:338-349 | all columns after a failed one: validators, last good fetch and quiet run stay |
| Statements.UpsertItemsMeans | internal/store/store.go:363-388 | a row for the first entry of each new key and no other, column by column, with the hash of the canonical url for want of one |
| Statements.UpsertInOrder | internal/store/store.go:371-388 | a batch is stored in its own order |
| Statements.CopiesShareHash | internal/store/store.go:372-375 | items stored without a hash of their own and with one canonical url get one hash, in whatever feeds and at whatever time |
| Statements.PruneItemsMeans | internal/store/store.go:445-451 | a row stays iff it is of another feed, or not older than the second of the cutoff and with fewer than keep of its feed in front of it |
| Statements.ListRowsMeans | internal/store/store.go:409-416 | rows newest first, of equal date later ids first, at most limit, only wanted ones; one left out sorts after all of them and found the limit reached |
| Statements.EvictMeans | internal/store/store.go:455-461 | exactly the feeds last requested before the second of the cutoff go, with their states and items; every other row of all tables stays |
| Statements.NextRowIs | internal/store/schema.go:7 | a new row gets the next id after the largest |
| Retention.PruneByRank | internal/store/store.go:445-451 | a row survives iff it is young and fewer than keep rows of its feed are newer; other feeds are untouched |
| Retention.PruneNewestFirst | internal/store/store.go:445-451 | every survivor is newer than every deleted row |
| Retention.PruneIsTopOfYoung | internal/store/store.go:445-451 | cutting by count and by age commute: the first keep of the young rows remain |
| Retention.PruneCompose | internal/store/store.go:445-451 | two prunes are one with the tighter limits; so pruning is idempotent and order does not matter |
| Retention.UpsertKeeps | internal/store/store.go:363-365 | first write wins: stored rows stay, added ones come after them |
| Retention.UpsertAdds | internal/store/store.go:371-387 | every added row is the batch's first copy of a key the feed did not have |
| Retention.UpsertStores | internal/store/store.go:363-388 | afterwards the feed has exactly the keys it had and those of the batch |
| Retention.UpsertCounts | internal/store/store.go:370-389 | the table grows by the number of distinct new keys |
| Retention.UpsertUnique | internal/store/schema.go:30-45 | (feed, key) stays unique |
| Retention.UpsertAgain | internal/store/store.go:353-390 | the same batch again changes nothing and counts zero |
| Ranking.TopByRank | internal/store/store.go:448 | a row is within the limit iff fewer than limit rows sort before it |
| Ranking.TopSize | internal/store/store.go:448 | all rows if there is room, otherwise exactly limit |
| Ranking.OrderedSorted | internal/store/store.go:415 | query order is strictly sorted by date and id |
| Repoll.PollKeepsIff | internal/poll/poller.go:180-197 | polling any document leaves exactly the rows still young iff every entry the feed does not have is, at its date in this poll, too old or behind keep young rows that are strictly newer |
| Repoll.SecondPollIff | internal/poll/poller.go:180-197 | so for two polls with any two documents |
| Repoll.RepollFixpoint | internal/poll/poller.go:180-197 | with the same document, dated alike: iff no entry no longer stored has the date of a young survivor |
| Repoll.NothingOvertakes | internal/poll/poller.go:180-197 | if nothing finds a place, then whatever comes in young enough is strictly older than every row the feed had, and those fill it |
| Repoll.LaterEntryDisplaces | internal/store/store.go:445-451 | an entry the feed does not have, no older than a young row, changes the survivors |
| Repoll.TieDisplaces | internal/store/store.go:445-451 | in particular one with the same date |
| Repoll.DateStaysIff | internal/parse/normalize.go:102-141 | a later poll dates an entry as before iff it has a date at most a day ahead of the earlier poll |
| Repoll.RedatedDisplaces | internal/parse/normalize.go:102-141 | two entries and room for one: clamped to the time of a later poll, the entry that lost takes the place of the one that is still young, and no dates tie |
| Intervals.NextInterval | internal/poll/config.go:68-85 | the loop computes the wrapped doubling, for all inputs |
| Intervals.NextIntervalMeans | internal/poll/config.go:68-85 | with base the ttl, or the default for want of one, at least Min, and k full runs of quiet polls: the lesser of Max and base * 2^k |
| Intervals.DefaultsMean | internal/poll/config.go:45-63 | what the default settings lead to, in figures |
| Intervals.WrapMeans | internal/poll/config.go:78 | int64: off by a multiple of 2^64, and in range |
| Intervals.NextIntervalClosedForm | internal/poll/config.go:68-85 | it is min(Max, base * 2^(quiet / Q)) for every ttl and quiet run iff Max is at most 2^62 |
| Intervals.NextIntervalOverflows | internal/poll/config.go:76-80 | above that a ttl of 2^62 overflows to the smallest integer |
| Intervals.IntervalMonotone | internal/poll/config.go:65-85 | short of overflow, longer quiet runs and longer positive ttls never shorten the computed interval |
| Intervals.IntervalInRange | internal/poll/config.go:65-85 | for ordered bounds, the computed interval lies between them for every ttl and quiet run iff Max is at most 2^62 |
| Intervals.IntervalOfInterval | internal/poll/poller.go:188-189 | short of overflow, NextInterval(NextInterval(ttl, 0), q) is NextInterval(ttl, q) |
| Intervals.ScheduleAgreement | internal/poll/poller.go:159-189 | once a document is recorded, a 304 and a quiet 200 schedule alike for every quiet run iff its interval is whole seconds or at most the minimum; below one second, where the row keeps its old interval, iff it is the maximum |
| Intervals.RoundTripAgreement | internal/store/store.go:191 | the same for the closed form, of an interval of at least a second read back in whole seconds |
| Intervals.Backoff | internal/poll/config.go:90-110 | the loop, the cap, Retry-After and the jitter, for all inputs |
| Intervals.BackoffMeans | internal/poll/config.go:87-110 | a day under the pin; otherwise the base, or the default for want of one, doubled per failure and capped, or Retry-After if longer, times 0.9 to 1.1 by the jitter, rounded down |
| Intervals.GrowIsCapped | internal/poll/config.go:77-83 | the early-stopping wrapped doubling, once capped, is the unbounded doubling capped |
| Intervals.DelayClosedForm | internal/poll/config.go:94-106 | before jitter, the n-th failure waits max(min(MaxBackoff, base * 2^n), Retry-After) |
| Intervals.DelayClosedFormIff | internal/poll/config.go:97-106 | it does so for every base, run and Retry-After iff MaxBackoff is at most 2^62 |
| Intervals.DelayOverflows | internal/poll/config.go:97-100 | above that a base of 2^62 overflows at the first failure and is retried at once |
| Intervals.DelayMonotone | internal/poll/config.go:97-106 | one more failure never shortens it |
| Intervals.JitterRange | internal/poll/config.go:107-109 | the wait lies in [floor(0.9 D), 1.1 D) |
| Intervals.HonoursRetryAfter | internal/poll/config.go:90-110 | the scheduled wait covers Retry-After for every jitter iff: under the pin, it is at most 24 hours; otherwise, nine tenths of the delay cover it |
| Intervals.PinCutsRetryAfter | internal/poll/config.go:91-93 | two inputs on which the pin halves a Retry-After of two days, one of them with a delay that would have covered it |
| Intervals.WithinCapIff | internal/poll/config.go:101-109 | the wait keeps within MaxBackoff for every jitter iff: under the pin, that is at least 24 hours; otherwise, eleven tenths of the delay stay below its next nanosecond |
| Intervals.CapExceeded | internal/poll/config.go:101-109 | an input of the default configuration that exceeds the cap for a quarter of all jitters |
| Claims.FailureReleases | internal/poll/poller.go:203-225 | after a recorded failure the due query passes the feed over until its time, and an on-demand claim may take it at once |
| Dedupe.Dedupe | internal/api/server.go:346-380 | both sorts and the pass, as the positions that come out |
| Dedupe.Pass | internal/api/server.go:350-377 | the loop over seen hashes and titles keeps exactly the survivors |
| Dedupe.SeenTitle | internal/api/server.go:365-371 | the inner loop finds a title within the window iff there is one |
| Dedupe.SurvivesByRecords | internal/api/server.go:357-375 | the recorded hashes and titles decide survival |
| Dedupe.OrderSorted | internal/api/server.go:349 | the sort is stable and sorted |
| DedupeTheorems.ChosenIff | internal/api/server.go:346-380 | the reference definition: an item comes out iff no earlier item has its hash and no earlier item that comes out has its title within 48 hours |
| DedupeTheorems.ChosenMeans | internal/api/server.go:349-377 | the same in columns and figures: earlier date, or equal date and earlier place; 172800 seconds |
| DedupeTheorems.FortyEightHours | internal/api/server.go:367 | two items of one title that come out are more than 172800 seconds apart |
| DedupeTheorems.TwoItems | internal/api/server.go:367 | of two items without a common hash both come out iff the titles differ or they are more than 172800 seconds apart |
| DedupeTheorems.ChosenOrder | internal/api/server.go:378 | what comes out is newest first, of equal date in input order, for every input |
| DedupeTheorems.DedupeSound | internal/api/server.go:343-345 | no two items that come out share a hash, or a title within 48 hours |
| DedupeTheorems.EarliestCopyWins | internal/api/server.go:343-345 | a hash that comes out is represented by its earliest copy |
| DedupeTheorems.DedupeComplete | internal/api/server.go:358-374 | every dropped item reaches an earlier one that comes out in at most two links: same hash, then same title |
| DedupeTheorems.DedupeOptimalAmongFirst | internal/api/server.go:346-380 | for every input, no collection of earliest copies with titles pairwise apart is larger than the result |
| DedupeTheorems.DedupeOptimal | internal/api/server.go:346-380 | so when no hash repeats, no collection with titles pairwise apart is |
| DedupeTheorems.ChosenIsSpread | internal/api/server.go:346-380 | the result is such a collection of earliest copies, each position once |
| DedupeTheorems.DedupeSorts | internal/api/server.go:378 | the result is newest first |
| DedupeTheorems.DedupeFilters | internal/api/server.go:343-345 | for newest-first input the result is a subsequence, ties in place |
| DedupeTheorems.NothingToDrop | internal/api/server.go:346-380 | conflict-free newest-first input passes unchanged |
| DedupeTheorems.DedupeIdempotent | internal/api/server.go:346-380 | collapsing twice is collapsing once, for every input |
| DedupeTheorems.HashKept | internal/api/server.go:358-374 | a hash keeps a copy iff its earliest copy repeats no earlier title that comes out |
| DedupeTheorems.HashClassCanBeLost | internal/api/server.go:362-374 | an input whose hash loses every copy, and whose result is smaller than a conflict-free pair |
| Timeline.PageIsSelection | internal/api/server.go:228-237 | the page is a strictly newest-first selection of the stored window: at most limit, only requested feeds, not before since, free of conflicts |
| Timeline.PageMeans | internal/api/server.go:229-237 | the page is the first limit of what comes out of a query for three times as many |
| Timeline.PageCovers | internal/api/server.go:228-237 | on a page that is not full, every row of the window appears or stands behind one that does |
| Timeline.GetItems | internal/api/server.go:175-262 | no feeds or too many: refused, nothing changed; otherwise every named feed is marked as wanted and the page comes back with the warming and stale urls; stored items are not touched |
| Timeline.EnsureFeeds | internal/store/store.go:171-181 | one id per url in order, each registered and marked |
| Timeline.Present | internal/api/server.go:247-256 | the loop lists the warming and the stale urls in request order |
| Timeline.UrlsMean | internal/api/server.go:248-255 | the urls listed are those of the chosen ids, all of them, in request order |
| Timeline.ListedAs | internal/api/server.go:247-256 | an id is listed as warming without a good fetch, a feed without a row included; as stale with one and a failure since |
| Timeline.PageAgrees | internal/api/server.go:229-237 | collapsing the listed items is selecting the rows of the page |
| Refinement.ClaimDueIsOneStep | internal/store/store.go:233-274 | whatever the claim returns and leaves in the tables is one step of the protocol, and the feeds returned are its new live fetches |
| Refinement.ClaimFeedIsThreeSteps | internal/store/store.go:278-297 | an on-demand claim succeeds iff its first step is enabled, and is that step and the two reads |
| Refinement.EnsureFeedIsTwoSteps | internal/store/store.go:147-168 | a registration nobody gets in the way of is its two statements in a row, for new, known and orphaned urls |
| Refinement.StartReadsClock | internal/poll/poller.go:142-146 | a fetch that has its host works with what its claim read and the clock as it is then |
| Refinement.QuietSteps | internal/poll/poller.go:128-147 | reading, waiting, arriving and breaking off change no table |
| Refinement.CallStatements | internal/store/store.go:147-165 | each statement of a registration works on the tables it meets, with the clock of its arrival |
| Poller.FetchOne | internal/poll/poller.go:140-201 | the tables after a fetch for every kind of reply and every transaction that may fail; which failures leave nothing recorded |
| Poller.StoreDocument | internal/poll/poller.go:180-200 | upsert, record and prune in this order, with the schedule the new items decide; a failed record keeps the headlines, a failed prune is passed over |
| Poller.RecordFailure | internal/poll/poller.go:203-209 | one error recorded with the backoff of one more failure |
| Poller.FailureMeans | internal/poll/poller.go:148-170 | all columns after each kind of failure, and which of them a Retry-After counts for |
| Poller.UnchangedMeans | internal/poll/poller.go:158-164 | all columns after a 304 |
| Poller.DocumentMeans | internal/poll/poller.go:180-196 | all columns after a stored document; the interval in the row depends on the ttl alone |
| Poller.DocumentKeeps | internal/poll/poller.go:197-199 | which headlines stay: those of the last keepFor with fewer than keepItems in front of them |
| Poller.FaultsMean | internal/poll/poller.go:181-199 | what each failing transaction leaves as it was |
| Poller.FinishStoresBase | internal/poll/poller.go:188-193 | the same interval after the protocol's last step, so that the agreement of 304 and quiet 200 holds of every recorded document |
| Poller.FetchIsOneStep | internal/poll/poller.go:148-171 | a fetch without a document is exactly one step of the protocol, which is abandoning it when its record fails |
| Poller.DocumentIsThreeSteps | internal/poll/poller.go:180-199 | a fetch with one is up to three steps, whichever transaction fails, so the theorems about runs cover it |
| HostLimiter.OneAtATime | internal/poll/hostlimit.go:27-43 | in every run a host has at most one holder, and each use begins at least the gap after every earlier release |
| HostLimiter.SlotStays | internal/poll/hostlimit.go:28-33 | a host's slot is never replaced once created |
| HostLimiter.NeverDeadlocked | internal/poll/hostlimit.go:27-43 | in every reachable state a goroutine in acquire or release can go on, or waits for a mutex whose holder can |
| HostLimiter.MeasuredWait | internal/poll/hostlimit.go:36-38 | waiting out the gap since the last release waits it out since all of them |
| HostLimiter.WaitsExactly | internal/poll/hostlimit.go:36-38 | no longer than it must: at once, or up to the gap after the last release |
| HostLimiter.WakesWhenDue | internal/poll/hostlimit.go:37 | a sleeper returns when that moment has come |
| HostLimiter.OneHolder | internal/poll/hostlimit.go:35 | two goroutines that hold one host are the same |
| HostLimiter.InvAlways | internal/poll/hostlimit.go:27-43 | the invariant behind these, in every run |
| WorkerPool.PoolBounded | internal/poll/poller.go:79-112 | at most Workers fetches hold a token, and the fetches spawned are, in order, the first of those claimed: none twice, none skipped |
| WorkerPool.ReturnsClean | internal/poll/poller.go:86-104 | when Run returns, by either way out, no fetch is alive and every token is back |
| WorkerPool.StopsWhenCancelled | internal/poll/poller.go:86-104 | the loop stops only when it is told to |
| WorkerPool.JobIsSpawned | internal/poll/poller.go:98-110 | it takes a token whenever one is free, and spawns the fetch of the very next job |
| WorkerPool.BatchesMean | internal/poll/poller.go:86-104 | a claim takes up its whole batch; told to stop within one, the loop leaves all that is left of it |
| WorkerPool.StopIsFinal | internal/poll/poller.go:86-104 | over every run: once it stops, nothing is claimed or spawned any more |
| WorkerPool.DefersNeverBlock | internal/poll/poller.go:107-108 | a goroutine's deferred receive and Done never wait |
| WorkerPool.LoopIsServed | internal/poll/poller.go:98-105 | whenever the loop has to wait, some goroutine can go on |
| WorkerPool.InvAlways | internal/poll/poller.go:78-114 | the token and wait-group accounting, in every run |
| Canonical.CanonNormalForm | internal/parse/normalize.go:58-82 | two queries are rebuilt equally iff, tracking keys aside, they give every key the same values in order |
| Canonical.CanonIdempotent | internal/parse/normalize.go:58-82 | rebuilding twice is rebuilding once, for every query, malformed ones included |
| Canonical.CanonMeans | internal/parse/normalize.go:58-82 | the rebuilt query parses to the original map less its tracking keys |
| Canonical.PrintRoundTrip | internal/parse/normalize.go:65-81 | parsing undoes printing, for every map |
| Canonical.CanonicalQuery | internal/parse/normalize.go:58-82 | the loops compute that query, and leave an empty one empty |
| Canonical.KeysAscend | internal/parse/normalize.go:65-69 | the keys come once each, in strictly ascending byte order |
| Canonical.LessMeans | internal/parse/normalize.go:69 | byte order: the first difference decides, and a proper beginning comes first |
| Canonical.CanonAscends | internal/parse/normalize.go:65-80 | the rebuilt query is its pairs printed in order, keys ascending |
| Canonical.CanonDrops | internal/parse/normalize.go:22-25 | its keys are those of the query but for the five named ones and all that begin with utm_, each with its values |
| Canonical.DeleteTracking | internal/parse/normalize.go:60-64 | the loop deletes exactly the tracking keys, in whatever order it meets them |
| Query.EscapeRoundTrip | internal/parse/normalize.go:76-78 | unescaping undoes percent-encoding, for every byte string |
| Query.PairsRoundTrip | internal/parse/normalize.go:70-80 | splitting the printed pairs gives back the same pairs in the same order |
| Query.EscapeMeans | internal/parse/normalize.go:76-78 | which bytes stand for themselves, what a space becomes, and the two upper-case digits of every other |
| Query.UnescapeMeans | internal/parse/normalize.go:59 | a plus is a space, and any byte but a percent sign stands for itself |
| Query.UnescapePercent | internal/parse/normalize.go:59 | a percent sign needs two digits |
| Query.HexMeans | internal/parse/normalize.go:59 | in either case |
| Query.SegmentMeans | internal/parse/normalize.go:59 | a query is taken apart at every ampersand, and unreadable segments are skipped |
| Query.PairMeans | internal/parse/normalize.go:59 | a segment is a key up to the first equals sign and a value, which may be missing |
| Query.ValuesMean | internal/parse/normalize.go:59 | values of one key keep their order |
| Query.PrintMeans | internal/parse/normalize.go:70-80 | pairs are written key=value with ampersands between them |

## Left out

- Network and parsing: the HTTP client, redirects, DNS and the guard against private addresses, feed formats, dates, discovery. A fetch takes any reply and any sequence of items.
- HTTP handlers beyond the selection of a page: ETag, gzip, JSON, health, metrics, single-feed reads, validation of parameters other than the number of feeds, `splitFeeds` and `clamp` (easy members), environment settings.
- The rest of `CanonicalURL` (scheme, host, port, fragment), `finish`, `clampDate` and the choice of item keys: plain expressions, or inputs of the store. Titles and hashes are compared through functions that are parameters.
- Database errors: a statement that fails rolls back and its caller stops, which the protocol has as `AbortCall` and `Abandon`, and `FetchOne` as an argument; the methods of `Store` model the statements that succeed, and the one error their data decides (items for an evicted feed).
- `FetchStates` and `Stats`: read-only queries; `GetItems` reads the state rows directly.
- Timeline.GetItems: one call that nobody interrupts, while other parties may step between its statements. What each of its statements promises on its own holds of the tables it meets, in every run: `RequestKeptIff` and `CreatedKept` of the registration, `PresentedInRun` of the states, `PageIsSelection` of the items, and `ServedInRun` of all of them together; that they see the same tables is not promised.
- Claims.EvictedStaysInert: does not cover an id that is given away after the record and before the prune of the same fetch; the prune then cuts the new feed to the limits that every poll of it applies (`PruneByRank`).
- Run and the host limiter are step systems, not methods: they are concurrent. `Run` over `WorkerPool` does not repeat what a fetch does to the tables, which `Protocol` has.
- Mutex fairness: `NeverDeadlocked` says some goroutine can go on, not which waiter gets the mutex.
- Floating point: the jitter is exact. Overflow of instants, and of a multiplication by one second, is not modelled; that of the two doubling loops is.
- That a page is filled by fetching three times its size, that a windowed selection is a prefix of the selection over all items, and that Retry-After is never undercut: the code does not do these.
- Repoll.RepollFixpoint: assumes that the document gives the same dates in both polls and agrees with the store on the keys they share; `SecondPollIff` has no such assumption.
- DedupeTheorems.DedupeOptimal: assumes that no hash repeats. For every input greedy is optimal among earliest copies only; `HashClassCanBeLost` is an input where a later copy would have made room for more.
- Poller.FetchOne: reads the clock once, as a parameter, and waits for no host; those interleavings are in `Protocol` and `HostLimiter`.
