# A verified model of the gym check-in system

This project models the parts of the gym check-in system that are hard to get right and proves
what they promise. The centre is the membership engine: the `memberships`, `membership_events`,
`payments` and `check_ins` tables, driven by grant, pause, unpause, cancel-pause, refund,
bulk-extend, check-in and the daily batch. Around it stand the token-bucket limiter, the check-in
cache, the login lockout, the session tokens, the idempotency layer with its canonical JSON,
keyset pagination and its cursor, the name search, the sales summary, the retrying transaction and
the phase step executor.

Verify everything with `dafny verify dfyconfig.toml`.

## How it is organised

| files | what they hold |
|---|---|
| `Schema`, `Engine`, `Store` | the tables and their constraints; every handler as a function on the tables; the class `Gym`, whose methods change the tables in place and are proved equal to those functions |
| `Answers` | when each handler does its work, and all that it writes, told by the columns of the tables and the request |
| `Calendar`, `Ledger`, `Extension`, `Visits`, `Standing`, `Lifecycle`, `History` | invariants and theorems over whole runs of the engine |
| `Batch`, `Prices`, `Sales`, `Tx` | the daily maintenance run with failing steps; what the grants of a run asked for; the sales summary and its balance with it; the transaction wrapper |
| `Limiter`, `Lru`, `Kiosk` | rate limiting; the cache with shared list elements; the check-in handler over both |
| `Lockout`, `Sessions`, `Jwt` | the admin row; access and refresh tokens, logout, cut-off; token text |
| `Json`, `Numeral`, `Canonical`, `Idempotency`, `Forms` | JSON printer and reader; the value of a numeral; canonical form; the Idempotency-Key layer; from the fields of a form to the columns of the tables |
| `Decimal`, `Base64`, `Wire`, `Cursor`, `Like`, `Paging` | codecs, LIKE escaping and the paged lists |
| `Executor` | `scripts/execute.py`, steps run one at a time |

A handler is one atomic step. Days are integers, times of day are integers in microseconds (seconds
in `Batch`), and the limiter uses real numbers. A membership's id is its position in the table. The
constraints of the tables are those of `db/migrations/00001_init.sql:70-104`; the exclusion
constraint is checked at every statement, for the row being written.

## What does not hold, and exactly when it does

- **Pausing a membership that is not active.** `ApplyPause` documents `status = 'active'` as a
  precondition, but the Pause handler only looks at `pause_used` and the dates
  (`backend/internal/http/memberships.go:499-527`). The date invariants, the no-overlap rule, the
  event ledger, the visit count and the batch results are proved for all runs, this one included.
  The promises attached to a status (a refunded membership stays refunded and has its money back, a
  live pass has a visit left, an expired row is really over) fail: `Standing.RefundedPassComesBack`
  sells a pass, refunds it, pauses it for today, unpauses it, and has it active again with ten
  visits. `Standing.RunStandsIff` says for which runs they hold: exactly those in which every
  accepted pause met an active row or starts on a later day.
- **A stale idempotency row.** A row older than 24 hours that no cleanup has removed is invisible to
  the lookup and still keeps a new response from being stored
  (`backend/internal/repo/idempotency_repo.go:39`, `:66`). `Idempotency.StaleRowExtendsTwice` sends
  one bulk-extend request twice under such a row and the membership is extended twice. A response
  whose key row could not be written is answered all the same
  (`backend/internal/http/bulk_extend.go:194-199`), and its repeat executes too.
  `Idempotency.RepeatBlockedIff` says that a repeated call is blocked for a day exactly when the
  first one's row could be written and the table held no row of the key at that time.
- **Numbers beyond float64.** The canonical form reads numbers as float64, so 1 and 1.0 are one
  request, and so are two numerals that round to the same float64. A body with a number out of range
  does not decode and is hashed as it stands, so key order and spacing then matter:
  `Canonical.HugeNumberKeepsOrder` has two orders of one body hashed apart, and
  `Canonical.KeyOrderIsIgnored` and `Canonical.SameCanonIffSameUpToOrder` give both cases as one
  if-and-only-if.
- **Repeated step numbers.** `scripts/execute.py` updates every entry that carries a step's number.
  The results about the executor are stated for such index files too; with distinct numbers "one
  step number" is one step.
- **The path id and the key.** The endpoint labels hold a literal `:id`
  (`backend/internal/http/memberships.go:64-67`), so a refund of another membership under the same
  key and body is answered with the first refund: `Idempotency.OtherIdIsReplayed`.
- **A one-day pause of the last day.** It leaves an active row whose term is over until the next
  batch run; `Batch.StaleAfterMidnight` says these are the only ones, and `Batch.RowSettles` which
  rows need a second run.

Where the documentation disagrees with itself, the model follows the code: for an early unpause
`docs/API.md:367` and `docs/PRD.md:20` give a formula that only takes the unused days off the end
date, and a worked example whose result also takes off the length the pause had added. The code does
what the example says (`backend/internal/repo/memberships_repo.go:277-296`), and
`Ledger.PauseThenUnpause` proves it: the term ends where it ended before the pause, less the unused
days. Days granted while a pause runs do not survive an early unpause
(`Ledger.UnpauseForgetsExtensions`).

## Model

| member | source | states |
|---|---|---|
| `History.EveryRun` | backend/internal/repo/memberships_repo.go:187-492 | after every sequence of requests from empty tables: rows obey their date rules, no day belongs to two live memberships of one member, the ledger explains every end date from the granted one, visits add up to ten, pauses add up to cancels and flags, every membership's first payment is the one its grant asked for, and the status promises held throughout exactly for sound runs |
| `History.SoundRunBalances` | backend/internal/http/memberships.go:785-815 | after a sound run the net of all payments is the sum of what the grants of the memberships not refunded asked for, and every live pass has a visit left |
| `History.RefundAfterRun` | backend/internal/http/memberships.go:755-815 | after every run a refund does its work exactly for an active or paused membership in reach, and is refused by name for an expired or refunded one |
| `History.EntryAfterSoundRun` | backend/internal/repo/checkins_repo.go:59-157 | after a sound run every active membership covering the day, monthly or pass, lets its member in and one check-in is recorded on it |
| `History.StaleGuardsKeepNoOverlap` | backend/internal/http/memberships.go:490-554 | however handlers' earlier reads and their writes interleave, any statements the database accepts keep live terms of a member apart |
| `Calendar.NoOverlapIsNoSharedDay` | db/migrations/00001_init.sql:99-104 | the exclusion constraint over closed ranges is the same as no day being shared by two live memberships of a member |
| `Calendar.WriteKeepsNoOverlap` | db/migrations/00001_init.sql:99-104 | checking only the written row keeps the whole table free of overlaps |
| `Calendar.StepKeepsCalendar` | backend/internal/repo/memberships_repo.go:226-329 | every request, refused or accepted, keeps start before end, windows inside the term, paused rows inside their window, active rows ahead of theirs, and no overlap |
| `Calendar.RunKeepsCalendar` | backend/internal/repo/memberships_repo.go:226-329 | the same over every run, with no condition on the requests |
| `Calendar.UnpauseAlwaysCommits` | backend/internal/repo/memberships_repo.go:260-296 | a paused row can always be unpaused; it becomes active and never ends before today |
| `Calendar.CancelAlwaysCommits` | backend/internal/repo/memberships_repo.go:311-329 | cancelling succeeds exactly for scheduled pauses; the constraint never refuses it |
| `Calendar.EntryIsUnique` | backend/internal/repo/checkins_repo.go:59-110 | at most one active membership can cover today, so the row the check-in locks is the only candidate |
| `Answers.GrantAnswers` | backend/internal/http/memberships.go:299-452 | a grant is accepted exactly for a positive price, a start not past, at least one month, a member in reach and a free term; then one active row and one payment are added, else nothing |
| `Answers.PauseAnswers` | backend/internal/http/memberships.go:490-554 | a pause is accepted exactly when the flag is not set, the window lies from today on inside the term, and the longer term is free; what is written then, and the reason of each refusal |
| `Answers.UnpauseAnswers` | backend/internal/http/memberships.go:563-618 | exactly the paused rows in reach are unpaused, with the new end date, an open row and one event |
| `Answers.CancelAnswers` | backend/internal/http/memberships.go:623-680 | exactly the pauses of active rows that start on a later day are cancelled |
| `Answers.RefundAnswers` | backend/internal/http/memberships.go:755-815 | exactly active and paused rows are refunded, with one mirrored payment and one event; expired and refunded ones are refused by name and nothing changes |
| `Answers.EntryAccepted` | backend/internal/repo/checkins_repo.go:59-157 | the covering active membership, monthly or pass, is entered as often as its member comes; a pass loses a visit on the first entry of the day and expires with the last one, and nothing else changes; only a used-up pass that is still active, which a sound run never has, is refused |
| `Answers.EntryRefused` | backend/internal/http/checkins.go:172-210 | without one nothing is written, and the answer tells whether an active membership starts later |
| `Lifecycle.RunCountsPauses` | backend/internal/http/memberships.go:499-503 | over every run the pauses recorded for a membership are its cancels plus one exactly when the flag is set, and never ran ahead by more than one |
| `Lifecycle.CancelBetween` | backend/internal/http/memberships.go:499-503 | between two pauses of one membership its ledger holds a cancel |
| `Lifecycle.SecondPauseRefused` | backend/internal/http/memberships.go:499-503 | after an accepted pause, through any requests but an accepted cancel of it, every further pause is refused and changes nothing |
| `Lifecycle.ClosedRowStays` | backend/internal/http/memberships.go:765-774 | no request writes a payment for an expired or refunded membership, and none but a pause from today on changes its status |
| `Lifecycle.ClosedIsFinal` | backend/internal/http/memberships.go:765-774 | over a sound run an expired or refunded membership keeps its status and its payments |
| `Lifecycle.GoneIsUntouched` | backend/internal/repo/memberships_repo.go:395-410 | no request but the batch touches the rows, payments or check-ins of a deleted member |
| `Lifecycle.DeletedForGood` | backend/internal/repo/checkins_repo.go:70-84 | a deleted member stays out of reach and has no entry, whatever follows |
| `Ledger.StepKeepsLedger` | backend/internal/repo/events_repo.go:34-53 | one request keeps every stored end date equal to the fold of its events from the granted end |
| `Ledger.RunKeepsLedger` | backend/internal/repo/memberships_repo.go:260-329 | the same after every run, although reactivation by the batch writes no event |
| `Ledger.CancelUndoesPause` | backend/internal/repo/memberships_repo.go:311-329 | cancelling a pause leaves the row the bulk extensions alone would have left, for any extensions made while the shifted pause was still ahead |
| `Ledger.UnpauseForgetsExtensions` | backend/internal/repo/memberships_repo.go:260-296 | an early unpause gives the same row whatever was granted while the pause ran |
| `Ledger.PauseThenUnpause` | backend/internal/repo/memberships_repo.go:226-296 | pause and early unpause shorten the original term by exactly the unused pause days |
| `Extension.ClashIsReach` | backend/internal/repo/memberships_repo.go:444-478 | the constraint check at one row of the loop fails exactly when that row's original term plus the days reaches a later live membership of the member, whichever rows were moved before |
| `Extension.OnceOrByRow` | backend/internal/repo/memberships_repo.go:385-492 | the all-at-once extension is free of overlap exactly when no target reaches |
| `Extension.AcceptedExtension` | backend/internal/repo/memberships_repo.go:385-492 | accepted exactly when no row it is meant for reaches; those rows, told by status, member, branch and type, move by the days with their windows, each gets one event in id order, and nothing else changes |
| `Extension.RefusedExtension` | backend/internal/repo/memberships_repo.go:385-478 | on conflict nothing changes and the reported id is the least row it is meant for that reaches |
| `Visits.StepKeepsVisits` | backend/internal/repo/checkins_repo.go:59-157 | one request keeps remaining plus charged days at ten for every pass |
| `Visits.RunKeepsVisits` | backend/internal/repo/checkins_repo.go:59-157 | remaining visits plus days whose first check-in was charged to the pass are ten after every run, and the counter is never negative |
| `Standing.PauseKeepsStandingIff` | backend/internal/http/memberships.go:499-527 | an accepted pause keeps the status promises exactly when the row was active or the pause starts later |
| `Standing.StepKeepsStandingIff` | backend/internal/http/memberships.go:263-862 | every other request keeps them |
| `Standing.RunStandsIff` | backend/internal/http/memberships.go:263-862 | they hold at every point of a run if and only if every accepted pause in it was of that kind |
| `Standing.RefundedPassComesBack` | backend/internal/http/memberships.go:463-618 | the failing run: a refunded pass becomes active with ten visits |
| `Standing.OriginalIsGrant` | backend/internal/repo/payments_repo.go:73-86 | the payment a refund mirrors is the one the grant wrote |
| `Store.Gym.GrantMembership` | backend/internal/http/memberships.go:299-452 | guards in order, one row and one payment, or nothing; equal to the grant function |
| `Store.Gym.PauseMembership` | backend/internal/http/memberships.go:463-554 | guards in order, end and status moved, one event; equal to the pause function |
| `Store.Gym.UnpauseMembership` | backend/internal/http/memberships.go:563-618 | the window is taken out of the end date and closed, one event |
| `Store.Gym.CancelScheduledPause` | backend/internal/http/memberships.go:623-680 | the pause is undone and may be used again, one event |
| `Store.Gym.RefundMembership` | backend/internal/http/memberships.go:685-815 | status, mirrored payment and event together, or nothing |
| `Store.Gym.DoCheckIn` | backend/internal/repo/checkins_repo.go:59-157 | the covering row, the first-of-day test, the decrement with expiry, one check-in row |
| `Store.Gym.MoveTargets` | backend/internal/repo/memberships_repo.go:444-478 | the row-by-row loop with a constraint check at each row gives the all-at-once result or rolls back naming the least conflict |
| `Store.Gym.ExtendAll` | backend/internal/repo/memberships_repo.go:385-492 | lock, loop, event loop; equal to the bulk-extension function |
| `Store.Gym.Midnight` | backend/internal/repo/maintenance_repo.go:19-67 | a day tick is the three status updates in their order on the next day |
| `Batch.Maintenance.RunExpiry` | backend/internal/batch/batch.go:65-102 | the loop over the six steps with any pattern of failures and cancellation |
| `Batch.FaultsOnlySkip` | backend/internal/batch/batch.go:68-94 | a run with failures has the effect of its committed steps alone and reports an error exactly when a step did not commit |
| `Batch.AnyStepsAreSafe` | backend/internal/repo/maintenance_repo.go:19-67 | any subset of the steps keeps the table constraints |
| `Batch.CleanRun` | backend/internal/batch/batch.go:68-94 | without failures a run applies the three row updates and the three cleanups to every row |
| `Batch.RewrittenAreDue` | backend/internal/repo/maintenance_repo.go:19-67 | the first three counters count the active rows past their term, the paused rows past their window and the active rows whose pause starts on the day |
| `Batch.DeletedAreOld` | backend/internal/repo/maintenance_repo.go:69-110 | the other three count the keys, revocations and audit rows older than a day, fifteen hours and a year |
| `Batch.CountsAreOfTheirStep` | backend/internal/batch/batch.go:65-102 | a step that committed reports what it affected in the tables its predecessors left, a step that did not reports nothing |
| `Batch.RowSettles` | backend/internal/repo/maintenance_repo.go:19-67 | after two runs no rule applies to a row; one run is not enough exactly for a paused row whose window and term are both over |
| `Batch.ThirdRunIsIdle` | backend/internal/batch/batch.go:65-102 | from any stored state the third run of a day changes nothing and counts zero everywhere |
| `Batch.ScheduledPauseStarts` | backend/internal/repo/maintenance_repo.go:55-67 | a scheduled pause becomes effective on its day and at no other midnight |
| `Batch.StaleAfterMidnight` | backend/internal/repo/maintenance_repo.go:19-49 | the only active rows past their term after midnight are those paused on exactly the final day |
| `Sales.FoldDays` | backend/internal/repo/payments_repo.go:206-232 | the loop through `dayIndex` gives strictly ascending days, each holding exactly its rows, cash plus card equal to its total |
| `Sales.SalesSummary` | backend/internal/repo/payments_repo.go:139-246 | totals, methods and days are the aggregates of the selected payments; both splits add up to the totals; net is gross less refunds |
| `Sales.SummaryGrows` | backend/internal/repo/payments_repo.go:139-246 | one more payment adds its amount to gross or refund, to net and to its method, exactly when its day and branch are asked for |
| `Sales.DaysAddUp` | backend/internal/repo/payments_repo.go:206-232 | the day buckets add up to the totals in all columns |
| `Prices.RunKeepsPriced` | backend/internal/http/memberships.go:392-415 | after every run, sound or not, the first payment of each membership has the amount, branch, method and day of the grant request that added its row |
| `Sales.MembershipBalances` | backend/internal/http/memberships.go:785-815 | where the status promises hold, a membership's payments sum to the amount its grant asked for until it is refunded, and to zero after, and so they do per branch and method |
| `Sales.AllTimeNet` | backend/internal/repo/payments_repo.go:139-246 | where the status promises hold, the all-time net is the sum of the granted amounts over the memberships not refunded |
| `Tx.Database.RunOnce` | backend/internal/repo/tx.go:67-83 | all of the work is committed or none, and the first answer that is not a success is reported |
| `Tx.Database.WithTx` | backend/internal/repo/tx.go:34-63 | at most three attempts, retried only after transient failures; success is the work of exactly one attempt, anything else leaves the tables alone |
| `Limiter.TokenBuckets.Allow` | backend/internal/http/middleware/ratelimit.go:59-96 | one call changes the table as the step function says, collection included |
| `Limiter.TokenBuckets.CollectStale` | backend/internal/http/middleware/ratelimit.go:98-104 | deleting while ranging removes exactly the stale buckets |
| `Limiter.DecisionIsIdeal` | backend/internal/http/middleware/ratelimit.go:59-104 | every decision and advice is that of a bucket that is never dropped |
| `Limiter.GrantedByTable` | backend/internal/http/middleware/ratelimit.go:59-96 | the grants counted below are the grants the limiter gives |
| `Limiter.UngrantedCallsForgotten` | backend/internal/http/middleware/ratelimit.go:76-95 | denied calls and calls of other addresses change no later decision |
| `Limiter.GrantsInInterval` | backend/internal/http/middleware/ratelimit.go:59-96 | in any interval an address is granted at most max plus rate times length calls |
| `Limiter.LimiterBound` | backend/internal/http/middleware/ratelimit.go:59-96 | the grants of the limiter itself, collection included, stay within the maximum and what is earned in the interval |
| `Limiter.EarnedPerWindow` | backend/internal/http/middleware/ratelimit.go:59-96 | one maximum is earned per window |
| `Limiter.BurstIsMax` | backend/internal/http/middleware/ratelimit.go:59-96 | after a silent window an address is granted exactly its maximum in one burst |
| `Limiter.RetryAfterIsExact` | backend/internal/http/middleware/ratelimit.go:85-95 | a call s seconds after a denial, with no grant between, is granted exactly when s is at least the advice |
| `Lru.Cache.Get` | backend/internal/cache/lru.go:95-111 | list and index keep agreeing; an expired line is dropped, a live one moves to the front |
| `Lru.Cache.Set` | backend/internal/cache/lru.go:116-135 | refreshes the shared element in place or inserts and evicts the oldest |
| `Lru.Cache.RemoveOldest` | backend/internal/cache/lru.go:138-144 | drops exactly the last line |
| `Lru.Cache.RemoveElement` | backend/internal/cache/lru.go:148-151 | drops the line from the list and from the index |
| `Lru.ApplyKeepsSize` | backend/internal/cache/lru.go:116-135 | no duplicate keys and never more than the maximum |
| `Lru.ApplyKeepsOrder` | backend/internal/cache/lru.go:95-135 | the list is in order of last touch |
| `Lru.HitIsLastSet` | backend/internal/cache/lru.go:95-111 | a hit returns what the last Set of that key stored, and only before its expiry |
| `Lru.UnexpiredKeyHits` | backend/internal/cache/lru.go:95-135 | an unexpired key is a hit while fewer than the maximum of distinct other keys were set or hit since its last touch |
| `Kiosk.CheckInHandler.Create` | backend/internal/http/checkins.go:95-171 | cache lookup, check-in on a miss, the rendered response with its time stored on success |
| `Kiosk.ClicksReplay` | backend/internal/http/checkins.go:106-169 | after a recorded check-in, through any other clicks and requests, every click of the pair within the time to live gets the first response, its time included, and exactly one check-in row of the pair is added, while fewer other pairs than the cache holds click in between |
| `Kiosk.BodyTellsVisit` | backend/internal/http/checkins.go:146-169 | the first click of an admitted member is told the check-in just recorded, the visits left after it and whether it ended the pass |
| `Kiosk.PairsDoNotCollide` | backend/internal/http/checkins.go:106-112 | different member and branch pairs never share a cache key |
| `Lockout.Admin.RecordLoginFailure` | backend/internal/repo/admins_repo.go:157-184 | counter and lock after a failure, restart after an expired lock included |
| `Lockout.Admin.RecordLoginSuccess` | backend/internal/repo/admins_repo.go:139-150 | counter cleared, stale lock kept |
| `Lockout.Admin.Login` | backend/internal/http/admins_auth.go:96-128 | unknown, locked, temporary password expired, wrong password, success, in that order |
| `Lockout.Admin.UpdatePassword` | backend/internal/repo/admins_repo.go:410-425 | clears lock and counter and sets the cut-off |
| `Lockout.Admin.Reset` | backend/internal/repo/admins_repo.go:364-383 | the same with a new temporary password |
| `Lockout.Admin.SoftDelete` | backend/internal/repo/admins_repo.go:342-357 | marks the row and sets the cut-off, once |
| `Lockout.EveryHistory` | backend/internal/repo/admins_repo.go:139-184 | over every login history the counter is the position in the current round of five failures, and five means a lock of fifteen minutes was set by the last of them |
| `Lockout.CounterInRange` | backend/internal/repo/admins_repo.go:139-184 | the counter stays in 0..5 and 5 comes with a lock |
| `Lockout.FiveFailuresApart` | backend/internal/repo/admins_repo.go:152-184 | between successes or resets the k-th and the (k+5)-th failed verification are at least fifteen minutes apart |
| `Lockout.LockedIff` | backend/internal/http/admins_auth.go:96-104 | a login is refused as locked exactly when the failures make whole rounds of five and the last is less than fifteen minutes old |
| `Lockout.RowFromHistory` | backend/internal/repo/admins_repo.go:342-425 | the password, the temporary-password columns and the deletion mark are those of the last reset, accepted change or deletion |
| `Lockout.LoginSucceedsIff` | backend/internal/http/admins_auth.go:96-122 | a matching password lets the admin in exactly when the account is not deleted, not in the fifteen minutes after a whole round of five failures, and any temporary password is at most a day old |
| `Lockout.DeletedStaysUnknown` | backend/internal/repo/admins_repo.go:101-108 | a deleted admin is unknown ever after |
| `Sessions.Auth.Login` | backend/internal/http/admins_auth.go:122-150 | both tokens are issued exactly on a successful login |
| `Sessions.Auth.RenewAccess` | backend/internal/http/admins_auth.go:167-222 | signature and expiry, revocation, live admin, cut-off, in that order |
| `Sessions.Auth.Logout` | backend/internal/http/admins_auth.go:229-258 | only a readable token of the caller is revoked |
| `Sessions.Auth.CleanupRevoked` | backend/internal/repo/maintenance_repo.go:85-92 | drops exactly the rows older than 15 hours |
| `Sessions.CleanedHasExpired` | backend/internal/repo/maintenance_repo.go:81-92 | a dropped row belongs to a token that has expired |
| `Sessions.StaleIff` | backend/internal/http/middleware/auth.go:58-61 | the cut-off comparison refuses a token exactly when the admin changed in a later second |
| `Sessions.RevokedIff` | backend/internal/repo/refresh_tokens_repo.go:24-50 | a row means a logout, and a logout means a row until the token has expired anyway |
| `Sessions.RefreshIff` | backend/internal/http/admins_auth.go:176-200 | a refresh token is accepted exactly when a login gave it out, it has not run out, its admin is live, and the history holds no logout with it and no later change |
| `Sessions.AccessIff` | backend/internal/http/middleware/auth.go:35-70 | an access token is accepted exactly when a login or renewal gave it out, it has not run out, and its admin is live and unchanged since |
| `Sessions.SignsOutIff` | backend/internal/http/admins_auth.go:229-258 | a logout is accepted exactly from the admin of a token that a login gave out and that has not run out |
| `Sessions.LogoutIsForever` | backend/internal/http/admins_auth.go:229-258 | a logged-out refresh token is never accepted again, whatever follows |
| `Sessions.ChangeCutsOlderTokens` | backend/internal/repo/admins_repo.go:342-425 | after a change or deletion every token from an earlier second is refused for good |
| `Json.ReadUndoesPrint` | backend/internal/idempotency/idempotency.go:130-141 | reading the compact text of a document gives the document back, so the text is injective |
| `Json.TrailerIff` | backend/internal/idempotency/idempotency.go:130-134 | after a document only white space may follow |
| `Json.IntegerIff` | backend/internal/idempotency/idempotency.go:130-134 | a run of digits, with or without a minus, is read as a number unless a zero leads others |
| `Json.ReadSurrogatePair` | backend/internal/idempotency/idempotency.go:130-134 | an escaped surrogate pair reads as the character it stands for |
| `Numeral.SameRewriteIff` | backend/internal/idempotency/idempotency.go:130-141 | two numerals are written alike exactly when they read as the same float64 |
| `Numeral.PointZeros` | backend/internal/idempotency/idempotency.go:130-134 | zeros after the point do not change the number |
| `Canonical.DecodeSorted` | backend/internal/idempotency/idempotency.go:146-168 | sorting keys at every depth loses nothing and keeps array order |
| `Canonical.MarshalObject` | backend/internal/idempotency/idempotency.go:180-200 | the buffer loop writes exactly the compact object |
| `Canonical.CanonKeepsMeaning` | backend/internal/idempotency/idempotency.go:112-141 | the canonical form decodes to what the body decodes to |
| `Canonical.CanonIdempotent` | backend/internal/idempotency/idempotency.go:116-141 | canonicalising twice is canonicalising once, for every body, JSON or not |
| `Canonical.SameCanonIff` | backend/internal/idempotency/idempotency.go:112-141 | two bodies are hashed over the same bytes exactly when they decode to the same value, numbers as float64, or when neither decodes and they are identical |
| `Canonical.SameCanonOfDocs` | backend/internal/idempotency/idempotency.go:112-168 | the same for any two documents written out, with or without numbers out of range |
| `Canonical.SameValueIff` | backend/internal/idempotency/idempotency.go:112-168 | without repeated keys, decoding to the same value is being the same document up to the order of fields at any depth and the spelling of numbers |
| `Canonical.SameCanonIffSameUpToOrder` | backend/internal/idempotency/idempotency.go:112-168 | two bodies have the same canonical bytes exactly when they are equal up to key order and number spelling, array order included; with a number out of range, exactly when they are the same document |
| `Canonical.SpellingsHashAlike` | backend/internal/idempotency/idempotency.go:130-141 | a field holding 1, 1.0 or 1.00 is one request, for every natural number |
| `Canonical.EscapesHashAlike` | backend/internal/idempotency/idempotency.go:130-141 | a character and its surrogate-pair escape are one request |
| `Canonical.KeyOrderIsIgnored` | backend/internal/idempotency/idempotency.go:146-168 | exchanging fields with different keys at any depth leaves the hash input exactly when every number is in range |
| `Canonical.HugeNumberKeepsOrder` | backend/internal/idempotency/idempotency.go:116-141 | the failing case: with a number out of range under one of two keys, the two orders of the keys are hashed apart |
| `Idempotency.Gateway.LookUp` | backend/internal/idempotency/idempotency.go:76-93 | miss, conflict or replay from a row fresher than 24 hours |
| `Idempotency.Gateway.InsertIdempotencyKey` | backend/internal/repo/idempotency_repo.go:59-75 | the first row of a key wins |
| `Idempotency.Gateway.BulkExtend` | backend/internal/http/bulk_extend.go:64-219 | key, body, days, reason, type and caller checked in order, then lookup, extension, stored success and stored conflict |
| `Idempotency.Gateway.Grant` | backend/internal/http/memberships.go:263-452 | key, body, type, months, amount, method, date, member and caller checked in order, then lookup; success only is stored |
| `Idempotency.Gateway.Refund` | backend/internal/http/memberships.go:685-862 | key, body, reason, membership and caller checked in order; the replay stands before the status guards |
| `Forms.GrantCall` | backend/internal/http/memberships.go:263-452 | a grant call without a fresh row is answered and stored exactly when it is filled in and the term is free; the row and the payment added have the member, type, months, dates, amount and method of the form |
| `Forms.RefundCall` | backend/internal/http/memberships.go:685-862 | a refund call without a fresh row refunds the membership of its path, exactly for a reason that is not blank and an active or paused row in reach |
| `Forms.BulkCall` | backend/internal/http/bulk_extend.go:64-219 | a bulk-extend call without a fresh row, when filled in, is answered and stored, success or conflict; on success exactly the rows the form names move by its days, with one event each |
| `Idempotency.KeyShapeIff` | backend/internal/idempotency/idempotency.go:37-52 | of the keys in the usual five groups of hexadecimal digits exactly those of version 4 and its variant are valid |
| `Idempotency.CleanupIsInvisible` | backend/internal/repo/maintenance_repo.go:72-79 | cleanup changes no lookup, then or later |
| `Idempotency.RowOutlivesRun` | backend/internal/repo/idempotency_repo.go:55-75 | a stored row is neither overwritten nor removed for 24 hours, whatever runs |
| `Idempotency.ReplayIsHarmless` | backend/internal/idempotency/idempotency.go:54-93 | a call that finds a fresh row changes nothing; what it answers is spelled out |
| `Idempotency.AtMostOnce` | backend/internal/idempotency/idempotency.go:54-110 | for 24 hours after a stored call, through any other traffic, its key changes nothing more: same request, same answer; different admin, endpoint or body, conflict |
| `Idempotency.BulkRetryAnswersAlike` | backend/internal/http/bulk_extend.go:125-219 | a bulk-extend retry gets the first status and body, success or conflict |
| `Idempotency.RepeatBlockedIff` | backend/internal/repo/idempotency_repo.go:33-75 | exactly when a repeat is blocked: the first execution's row could be written and no row of the key was in the table |
| `Idempotency.StaleRowExtendsTwice` | backend/internal/repo/idempotency_repo.go:33-75 | the failing case: under a stale row the same bulk extension takes effect twice |
| `Idempotency.SameBodyIff` | backend/internal/idempotency/idempotency.go:112-141 | the replay is given exactly to bodies that decode to the same value, or are identical when they do not decode |
| `Idempotency.OtherIdIsReplayed` | backend/internal/http/memberships.go:64-67 | the path id is not part of the identity |
| `Paging.OrderedRows` | backend/internal/repo/members_repo.go:213-276 | the ordering lists every selected row once, newest first |
| `Paging.ListRows` | backend/internal/repo/members_repo.go:248-276 | the scan loop and the truncation give the page and the next cursor |
| `Paging.PageSplits` | backend/internal/repo/checkins_repo.go:219-290 | a page followed by what its next cursor selects is the whole ordered list |
| `Paging.WalkReturnsAll` | backend/internal/repo/members_repo.go:213-276 | following cursors ends after ceil(n / limit) pages and returns every row once, in order, for any limit |
| `Paging.PageCountIsCeil` | backend/internal/repo/members_repo.go:213-276 | the number of pages is ceil(n / limit) |
| `Paging.ArrivalsDoNotDisturb` | backend/internal/repo/checkins_repo.go:219-290 | the walk reads exactly the rows asked for, by branch, deletion mark and day, newest first; rows arriving above the cursor neither appear nor shift, repeat or drop one |
| `Paging.NewerIsAbove` | backend/internal/http/cursor.go:23-30 | newer rows are above every cursor a reader can hold |
| `Like.EscapedIsLiteral` | backend/internal/repo/members_repo.go:374-384 | an escaped text before any pattern matches itself and nothing else |
| `Like.PrefixSearch` | backend/internal/repo/members_repo.go:311-316 | the name pattern matches exactly the names that start with the query |
| `Like.EscapeIsInjective` | backend/internal/repo/members_repo.go:374-384 | no two queries share a pattern |
| `Base64.DecodeEncode` | backend/internal/http/cursor.go:36-43 | unpadded base64url decodes what it encodes, for every length |
| `Base64.DecodePaddedEncode` | backend/internal/http/cursor.go:52-61 | padded text is read by the padded decoder, and by the unpadded one exactly when there is no padding |
| `Base64.GroupsIff` | backend/internal/http/cursor.go:52-61 | a text is decoded exactly when it is over the alphabet and no single character is left over |
| `Base64.FromUtf8Utf8` | backend/internal/auth/jwt.go:166-178 | UTF-8 decoding undoes encoding for every text |
| `Cursor.ParseFormatTime` | backend/internal/http/cursor.go:38-39 | the written instant reads back to the nanosecond |
| `Cursor.DecodeEncodeCursor` | backend/internal/http/cursor.go:36-88 | decoding undoes encoding for every id and UTC instant, padded or not |
| `Jwt.SplitThree` | backend/internal/auth/jwt.go:182-186 | three parts without dots are split apart again |
| `Jwt.VerifySigned` | backend/internal/auth/jwt.go:166-217 | a verifier gives the payload back exactly when its MAC of the signing text is the signer's |
| `Jwt.VerifiedIsSigned` | backend/internal/auth/jwt.go:182-217 | what is accepted has three parts, names HS256 and ends in the MAC of what precedes |
| `Jwt.ParseIssuedAccess` | backend/internal/auth/jwt.go:89-141 | an issued access token reads back as its claims, the clock's times filled in, exactly until it expires |
| `Jwt.ParseIssuedRefresh` | backend/internal/auth/jwt.go:102-161 | the same for refresh tokens |
| `Executor.StepExecutor.ExecuteSingleStep` | scripts/execute.py:874-993 | a number already blocked stops the process; otherwise at most three attempts, and every entry of the number gets the status of the last verdict, nothing else changed |
| `Executor.StepExecutor.ExecuteAllSteps` | scripts/execute.py:1022-1043 | the loop over the first pending step ends and gives exactly the run and the phase status of the reference function |
| `Executor.StepExecutor.Finalize` | scripts/execute.py:1045-1062 | the phase is closed exactly when every step is completed |
| `Executor.StepExecutor.CheckBlockers` | scripts/execute.py:627-641 | refuses to start while the last step that is not pending is failed or blocked |
| `Executor.StepExecutor.RunPhase` | scripts/execute.py:141-155 | a phase is newly closed exactly when the run ended normally with everything completed |
| `Executor.Attempts` | scripts/execute.py:894-993 | one to three attempts, all but the last a retry, completed exactly on a pass, failed exactly on a third retry |
| `Executor.RunStops` | scripts/execute.py:1022-1043 | steps run in index order; a run ends with nothing pending or at exactly one step number, the only one it fails or blocks, and what comes later is untouched |
| `Executor.StatusIsEarned` | scripts/execute.py:894-993 | every status a run writes is earned by the gate calls made for that number, and an entry whose number was not attempted keeps its status |

## Left out

- Concurrency of handlers beyond `History.StaleGuardsKeepNoOverlap`: two check-ins that both miss the cache, two refunds under different keys, commits with unknown outcome.
- Audit logs, response rendering, reasons, `performed_by`, branch and admin management, member search other than the name pattern, health, CORS and the user interface: each is a single guarded statement or a rendering without state.
- Month arithmetic of grants: the end date is the start plus a positive number of days.
- Gaps in serial ids: an id is the row's position.
- The clock: the batch's day and the handlers' day are one; a day tick moves it by one and runs the batch.
- bcrypt, HMAC and SHA-256: the password check is an oracle, the MAC is a parameter, and the hash of a body is represented by the bytes it is taken over.
- Idempotency.Gateway.Grant: how a body binds to its fields, the parsing of the path id and the rendering of the stored body are parameters of the call.
- Sessions.RefreshIff: a signature is accepted exactly when the token was issued, and no token identifier is generated twice; role and branch are not kept in the access claims of that file (`Jwt` has them).
- Canonical.SameCanonIff: the rounding of a number to float64 and the text of a float64 are parameters, required only to read back what was written; JSON nested deeper than the standard decoder's limit is not refused.
- Json.ReadUndoesPrint: text is Unicode scalar values, so bytes that are not UTF-8, which the decoder replaces, do not occur.
- Jwt.ParseIssuedAccess: the standard reader also matches field names without regard to case; the model reads exact names.
- Cursor.DecodeEncodeCursor: the reader accepts the zone Z only, not numeric offsets, and instants are civil fields.
- Limiter.DecisionIsIdeal: real numbers and a clock that never goes back, in place of floating point; the window is positive and the maximum at least one, as the callers configure it.
- Lru.Cache.Get: the list is a sequence of shared elements, not linked cells.
- Batch.Maintenance.RunExpiry: the deleted tables are represented by the creation times of their rows.
- Paging.ListRows: the answer of the database is a parameter, required to be the ordered selection cut at limit + 1.
- Executor.StepExecutor.ExecuteAllSteps: parallel groups are not modelled (each thread writes back an index it read before its gate), nor are git, worktrees and the child processes, whose outcome is an oracle; a child that blocks its step marks every entry of its number and writes nothing else to the index.
- Tx.Database.WithTx: other sessions do not write between the attempts, and the lengths of the waits are not modelled.
- Integer overflow in SQL sums and in token times.
