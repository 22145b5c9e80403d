# Wishtick: a verified model

This project models the parts of the Wishtick backend whose correctness does not show in any one
function, and proves what they promise.

- **Time zones** (`Calendar.dfy`, `Zoned.dfy`). The Gregorian calendar over all days, `Date.UTC` and
  `Intl` formatting; the two-pass search for a wall time and the next local midnight built on it. A
  zone is any function from instants to offsets.
- **Redis protocols** (`Redis.dfy`, `Locks.dfy`, `BestEffort.dfy`, `Idempotency.dfy`). One store with
  expiries and a clock; the lock, the best-effort lock over a unique index, and idempotent requests,
  each as atomic steps of any number of clients in any order, and each service as a class.
- **Takedowns and reports** (`Takedown.dfy`, `Moderation.dfy`). Twelve kinds of content, hidden or
  deleted and put back, with counters, audit trail and the report queue on top.
- **Computations that must agree** (`Retention.dfy`, `Csv.dfy`, `Payments.dfy`). Cohort figures and
  the lists of people behind them; a CSV printer and a reader; a classifier and database filters.
- **Sequencing** (`Migrations.dfy`, `Sessions.dfy`, `Catalog.dfy`). Migrations up and down, admin
  tokens and the sessions shown of them, and the positions of catalog options.

`Texts.dfy` is the database's order of strings and `Wrappers.dfy` an option type. What the runtime
supplies (clocks, tokens, fingerprints, what other clients do meanwhile, whether a write arrives) is a
parameter. The results of database queries that sort or group are parameters too, with what the
database promises of them as a precondition.

Where the code does less than its comments say, the model follows the code and the table gives the
exact condition:

- `zoneOffsetMs` is exact only from the year 100 on: `Date.UTC` moves the years 0 to 99, and `Intl`
  prints earlier ones without their era. A wall time before it by more than the greatest offset
  is always missed.
- `nextLocalMidnight` can pass over a midnight that the clock shows twice.
- A reel taken down comes up again, its removal still in force, when a compile that one of its wishes
  set off is through.
- An idempotent request whose record goes between its failed `SET NX` and its `GET` runs without a
  marker, and a handler that outlives its 60-second marker can be joined by another.
- `toCsv` prints column names unquoted, and a last row that is a single empty cell is lost.
- `paymentStateFilter` takes an amount that is missing beside a claim for a partial payment, which
  `paymentStateOf` calls received.
- `down` undoes the greatest id in the database's order, which is always the last applied if and only
  if, of every prefix of the sorted list, that is the last or cannot be undone.
- "Log out everywhere" spares a token minted in the same millisecond, and neither it nor a reset ends
  a sign-in that is past its checks; a session with a hundred newer ones is not listed; and two
  super-admins who demote each other at once leave none.

Run `dafny verify dfyconfig.toml` to check everything.

## Model

| member | source | states |
|---|---|---|
| `Calendar.YearFromDay` | src/common/time/zoned.ts:32-39 | Every day lies in the year it is given, which begins on or before it and ends after it. |
| `Calendar.DayFromYearClosedForm` | src/common/time/zoned.ts:32-39 | Counting years one by one comes to the closed form of ECMAScript for the first day of a year, before and after 1970. |
| `Calendar.MonthsClosedForm` | src/common/time/zoned.ts:32-39 | Counting months one by one comes to the closed form of the calendar for the days before each month. |
| `Calendar.MakeDayClosedForm` | src/common/time/zoned.ts:32-39 | The day that a year, month and day name, in closed form, with no table of months. |
| `Calendar.MonthsRollOver` | src/common/time/zoned.ts:32-39 | A month out of range is a month of another year. |
| `Calendar.TwoDigitYears` | src/common/time/zoned.ts:32-39 | `Date.UTC` takes a year of two digits for the one of the twentieth century that ends in them, and any other for itself. |
| `Calendar.CivilOfIsExact` | src/common/time/zoned.ts:28-39 | The fields an instant shows are a real date and time, and name the instant again but for its milliseconds. |
| `Calendar.FieldsRoundTrip` | src/common/time/zoned.ts:28-39 | The instant that a real date and time name shows that date and time again. |
| `Calendar.DateUtcRoundTrip` | src/common/time/zoned.ts:32-39 | `Date.UTC` of the fields of an instant gives it back, milliseconds dropped, if and only if the year is not one of 0 to 99. |
| `Calendar.TwentyNinthOfFebruary` | src/common/time/zoned.ts:121-122 | 29 February is itself in a leap year and 1 March in any other. |
| `Zoned.PrintedIsLocalTime` | src/common/time/zoned.ts:17-31 | What `Intl` prints is the local time, but for BC years and a midnight printed as hour 24. |
| `Zoned.PrintedFieldsReadBack` | src/common/time/zoned.ts:28-39 | Naming the parts `Intl` prints, midnight as hour 24 and a BC year without its era included, gives the instant back if and only if the year is 100 or later. |
| `Zoned.ZoneOffsetIsExact` | src/common/time/zoned.ts:17-41 | `zoneOffsetMs` is the zone's offset less the milliseconds of the local time, if and only if the local year is 100 or later. |
| `Zoned.ReaderIsExactAt` | src/common/time/zoned.ts:17-41 | On a whole second, with a whole-second offset, it is the offset itself. |
| `Zoned.SearchResult` | src/common/time/zoned.ts:52-59 | What the two-pass search returns, by which side of the change the guess and the first candidate fall; both offsets are asked on whole seconds. |
| `Zoned.SearchFindsWallTime` | src/common/time/zoned.ts:44-60 | With one change of offset near the guess, the result reads as the wall time if and only if some instant does. |
| `Zoned.SearchInAGap` | src/common/time/zoned.ts:52-59 | A skipped wall time comes out exactly the size of the shift away: earlier if the guess lies before the change, later otherwise. |
| `Zoned.SearchInARepeatedHour` | src/common/time/zoned.ts:52-59 | Of the two instants that read as a repeated wall time, the search takes the one on the guess's side of the change. |
| `Zoned.WallTimeIsFound` | src/common/time/zoned.ts:44-60 | `zonedWallTimeToUtc` itself, from twice the greatest offset into the year 100 on, a year given as 0 to 99 meaning one of the twentieth century: exact where the wall time exists, off by the shift where it does not, no third outcome. |
| `Zoned.EarlyWallTimeIsMissed` | src/common/time/zoned.ts:44-60 | Of a wall time before the year 100 by more than the greatest offset it makes an earlier one, in any zone whose offsets stay within 180 days. |
| `Zoned.WallTimeShowsItsFields` | src/common/time/zoned.ts:44-60 | An instant found for a real date and time shows exactly those fields on the zone's clock, the year as `Date.UTC` takes it. |
| `Zoned.YearInZoneIsShown` | src/common/time/zoned.ts:63-65 | `yearInZone` is the year the zone's clock shows, a BC one by its number; so that year itself if and only if it is 1 or later. |
| `Zoned.NextLocalMidnightIsLater` | src/common/time/zoned.ts:71-83 | The next midnight of a month and day is strictly after `from`, also for 29 February and for 1 January. Of the zone only the time from this new year to that midnight matters. |
| `Zoned.NextLocalMidnightIsAMidnight` | src/common/time/zoned.ts:71-83 | It is local midnight of that month and day, this year or next, if and only if that midnight exists. |
| `Zoned.NextLocalMidnightIsTheNext` | src/common/time/zoned.ts:67-83 | Another such midnight lies between `from` and it if and only if one that the clock shows twice is passed over. |
| `Zoned.AMidnightIsPassedOver` | src/common/time/zoned.ts:67-83 | A zone and an instant for which an earlier midnight is passed over. |
| `Zoned.ZonedNowReadsTheClock` | src/common/time/zoned.ts:101-118 | `zonedNow` gives the date and hour of the zone's clock, however midnight is printed, and the year itself if and only if it is 1 or later. |
| `Locks.StepKeepsInv` | src/infra/redis/lock.service.ts:42-85 | Whatever command any client sends, what each believes of its unexpired lease is what Redis holds. |
| `Locks.RunKeepsInv` | src/infra/redis/lock.service.ts:24-36 | The same over every interleaving of any number of clients and the passing of time. |
| `Locks.OneOwner` | src/infra/redis/lock.service.ts:31-35 | At most one token owns a key. |
| `Locks.OthersAreLeftAlone` | src/infra/redis/lock.service.ts:42-62 | No acquire, release or extend by one token removes, shortens or lengthens another's lease. |
| `Locks.ReleaseFrees` | src/infra/redis/lock.service.ts:42-51 | Letting go of an owned lock frees its key at once. |
| `Locks.BodiesNeverOverlap` | src/infra/redis/lock.service.ts:87-109 | Two pieces of work under one key, each ending within its lease, never overlap in any run. |
| `Locks.OwnershipLasts` | src/infra/redis/lock.service.ts:24-36 | A lock is never lost before its time, whatever the other clients do. |
| `Locks.LeaseLasts` | src/infra/redis/lock.service.ts:24-36 | What a token was given, key, time and all, stays as it is while it does nothing itself. |
| `Locks.WonForItsTime` | src/infra/redis/lock.service.ts:42-62 | Whoever finds a key free wins it, and owns it, in Redis too, just until the time asked for is over, whatever the others do; so does an owner that extends. |
| `Locks.LockKeysDiffer` | src/infra/redis/lock.service.ts:65-85 | Two names have one lock only if they are one name. |
| `Locks.RunIsApplyAll` | src/infra/redis/lock.service.ts:42-62 | The commands the service is told of do to Redis what the steps of the protocol do. |
| `Locks.LockService.TryAcquire` | src/infra/redis/lock.service.ts:65-85 | Wins at the first of its attempts that finds the key free; returns nothing if none does, and a failed attempt changes nothing. |
| `Locks.LockService.ReleaseLock` | src/infra/redis/lock.service.ts:146-148 | Deletes the key only while it holds the lock's own token. |
| `Locks.LockService.ExtendLock` | src/infra/redis/lock.service.ts:150-157 | Sets a new lifetime, and says so, exactly when the token still holds the key. |
| `Locks.LockService.WithLock` | src/infra/redis/lock.service.ts:91-109 | Does its work on the database once, under the lock, and lets go, also when the work throws; or, if every attempt finds the key taken, leaves the database alone. |
| `Locks.LockService.WithBestEffortLock` | src/infra/redis/lock.service.ts:126-144 | Does its work on the database exactly once whether or not the lock was won, and lets go only of a lock it won. |
| `BestEffort.WorkRunsOnce` | src/infra/redis/lock.service.ts:111-144 | In every interleaving a caller's work runs once: not before it is judged and never again. |
| `BestEffort.LeavingTouchesNoOther` | src/infra/redis/lock.service.ts:135-143 | A caller that did not win, or whose lease another now holds, changes nothing in Redis by leaving. |
| `BestEffort.CallIsARun` | src/infra/redis/lock.service.ts:126-144 | What that method promises, of a first-writer's write, is a run of one caller's attempts, write and release. |
| `BestEffort.OneSuccess` | README.md:189 | Of any number of callers writing under a unique key, one succeeds and every other gets a conflict, whatever happens to the lock meanwhile. |
| `Idempotency.OrderlyStepKeepsMarkers` | src/common/idempotency/idempotency.interceptor.ts:86-156 | A handler under way keeps its own marker as the stored record, if no record goes between a failed NX and its GET and no marker lapses first. |
| `Idempotency.OrderlyIsExact` | src/common/idempotency/idempotency.interceptor.ts:86-156 | A step keeps every handler's marker in place if and only if it meets those two conditions. |
| `Idempotency.OrderlyRunIsExact` | src/common/idempotency/idempotency.interceptor.ts:86-156 | Over a run, the markers are in place at every state if and only if every step meets them. |
| `Idempotency.AtMostOneHandler` | src/common/idempotency/idempotency.interceptor.ts:86-156 | In every such run, of any number of requests, at most one handler is under way on a key, and its marker is what Redis holds. |
| `Idempotency.ReplaysAreOriginals` | src/common/idempotency/idempotency.interceptor.ts:87-113 | In every run at all, a replayed body is one that a handler returned for the same key and fingerprint. |
| `Idempotency.LandingSettles` | src/common/idempotency/idempotency.interceptor.ts:111-114 | A result that lands leaves nobody at work on the key and 24 hours to its record. |
| `Idempotency.NoHandlerUntilTheResultLapses` | src/common/idempotency/idempotency.interceptor.ts:26-29 | Once a result has landed, no handler runs on its key until its 24 hours are up. |
| `Idempotency.SettledAnswers` | src/common/idempotency/idempotency.interceptor.ts:87-106 | Meanwhile a request is given that very body, or refused if its fingerprint differs. |
| `Idempotency.RecordDecides` | src/common/idempotency/idempotency.interceptor.ts:87-106 | An answer without a handler is decided by the record: 422 for another fingerprint, 409 in flight, the stored body when done. |
| `Idempotency.FailureFreesTheKey` | src/common/idempotency/idempotency.interceptor.ts:115-129 | A failed handler's delete frees the key at once. |
| `Idempotency.LostMarkersLapse` | src/common/idempotency/idempotency.interceptor.ts:28-29 | A marker whose store or delete never arrives is gone once 60 seconds are over, whatever else happens, until something new is written under its key: nothing prolongs it, and the next to claim the key runs. |
| `Idempotency.RecordGoneBeforeGet` | src/common/idempotency/idempotency.interceptor.ts:151-155 | A run where the record goes between NX and GET, and two handlers run on one key. |
| `Idempotency.MarkerLapsesUnderHandler` | src/common/idempotency/idempotency.interceptor.ts:28-29 | A run where a handler outlives its marker, and two handlers run on one key. |
| `Idempotency.KeysDoNotCollide` | src/common/idempotency/idempotency.interceptor.ts:82-83 | Two users' keys are never the same record. |
| `Idempotency.Interceptor.Claim` | src/common/idempotency/idempotency.interceptor.ts:142-156 | Claims a free key with a 60-second marker, or gives the record found after what others did between NX and GET. |
| `Idempotency.Interceptor.Intercept` | src/common/idempotency/idempotency.interceptor.ts:63-134 | One request: its answer, whether its handler ran, and the record it leaves, for each branch. |
| `Idempotency.HandlerIsARun` | src/common/idempotency/idempotency.interceptor.ts:108-131 | A caller whose handler runs is given its result or its error, whether or not the store or delete reaches Redis. |
| `Idempotency.ServedFreeIsARun` | src/common/idempotency/idempotency.interceptor.ts:108-131 | A request that finds its key free, others taking any steps while its handler runs, is a run of the protocol with the same record and answer. |
| `Idempotency.ServedBeatenIsARun` | src/common/idempotency/idempotency.interceptor.ts:87-106 | So is one that was beaten to its key and finds a record at its GET. |
| `Idempotency.ServedUnmarkedIsARun` | src/common/idempotency/idempotency.interceptor.ts:151-155 | So is one that was beaten and finds none, and runs its handler without a marker. |
| `Takedown.ChangesTakeDown` | src/modules/admin/admin-takedown.service.ts:105-199 | Setting a plan's fields makes a document count as down, for every soft kind. |
| `Takedown.DownIsAsSet` | src/modules/admin/admin-takedown.service.ts:105-199 | A document counts as down if and only if each telling field of its plan reads as the plan sets it: to some time, to nothing, or to just that. |
| `Takedown.NothingIsShown` | src/modules/admin/admin-takedown.service.ts:105-199 | Of the video, text, picture, title or link that a plan replaces nothing can be read from the document once it is down. |
| `Takedown.TakenDownNow` | src/modules/admin/admin-takedown.service.ts:105-199 | Of the kinds with a field for it, the document says when it was taken down. |
| `Takedown.RemovedIsDown` | src/modules/admin/admin-takedown.service.ts:229-292 | What could be taken down is down, by the newest removal, which holds whose it was, who took it down, why and for which report. |
| `Takedown.RemovingBringsNothingUp` | src/modules/admin/admin-takedown.service.ts:229-292 | A takedown of one thing brings no other up. |
| `Takedown.RemovalAsksAnew` | src/modules/admin/admin-takedown.service.ts:410-429 | An item taken down has its list, and nothing else, counted anew; a wish its reel, if released, compiled anew and set releasing; a hard removal asks for nothing. |
| `Takedown.RestoreAsksAnew` | src/modules/admin/admin-takedown.service.ts:310-332 | Putting back asks for the same again, and sets the reminders of an event that was published. |
| `Takedown.RowOfRemoval` | src/modules/admin/admin-takedown.service.ts:264-277 | The audit row of a removal no report covers. |
| `Takedown.ShownIsRead` | src/modules/admin/admin-takedown.service.ts:393-400 | What that row says of the target afterwards is what the target reads, times aside. |
| `Takedown.RowOfRestore` | src/modules/admin/admin-takedown.service.ts:338-348 | The row of a restore, however much later, is the mirror of the removal's. |
| `Takedown.EverythingIsAccounted` | src/modules/admin/admin-takedown.service.ts:258-349 | Over any run, each owner has been told of each removal, once and in order, and the audit trail holds one row for each removal no report covers and one for each restore. |
| `Takedown.ActiveFor` | src/modules/admin/admin-takedown.service.ts:352-358 | Finds the newest removal of that target not put back, and nothing only if there is none. |
| `Takedown.RemoveKeepsInv` | src/modules/admin/admin-takedown.service.ts:229-292 | A removal keeps what is known of each target: one in force at most, and all that is needed to undo it. |
| `Takedown.RestoreKeepsInv` | src/modules/admin/admin-takedown.service.ts:295-349 | So does putting one back. |
| `Takedown.RemoveKeepsCounts` | src/modules/admin/admin-takedown.service.ts:402-408 | A removal keeps each capsule's count equal to its number of wishes. |
| `Takedown.RestoreKeepsCounts` | src/modules/admin/admin-takedown.service.ts:402-408 | So does putting one back. |
| `Takedown.CountsStayRight` | src/modules/admin/admin-takedown.service.ts:402-408 | Over any run, each capsule's count is its number of wishes. |
| `Takedown.OneRemovalInForce` | src/modules/admin/admin-takedown.service.ts:229-349 | All through a run, each target has at most one removal not put back, if no compile lands on it, a reel, while one is in force. |
| `Takedown.DoublingIsExact` | src/modules/admin/admin-takedown.service.ts:229-256 | From one removal in force at most, a step leaves one at most if and only if it is not a takedown of a target that has one already and yet is up. |
| `Takedown.OneInForceIsExact` | src/modules/admin/admin-takedown.service.ts:229-349 | And at every state of a run there is one at most if and only if no step of it is such a takedown. |
| `Takedown.SpoilingIsExact` | src/modules/reels/reel-compile.service.ts:50-112 | A compile that lands on a removed reel puts it up with its removal in force; no other step parts the two. |
| `Takedown.CompilesOnce` | src/modules/reels/reel-compile.service.ts:50-112 | A compile that lands shows the new video and leaves every other document alone; a second one of the reel does nothing. |
| `Takedown.AWishSpoilsItsReel` | src/modules/admin/admin-takedown.service.ts:410-429 | A released reel is taken down and then a wish of it: the compile this asks for puts the reel up with its removal in force, and a second removal of it can follow. |
| `Takedown.DownExactlyWhenRemoved` | src/modules/admin/admin-takedown.service.ts:229-358 | A target that started up is, all through a run, down just when a removal of it is in force, if and only if no compile lands on it while one is. Only a reel is ever compiled. |
| `Takedown.PuttingBackGivesEverythingBack` | src/modules/admin/admin-takedown.service.ts:294-349 | Over any such run, a removal in force can be put back, and every field then reads as at the start, a missing one as null; of a reel as last compiled, a released one perhaps being compiled again. |
| `Takedown.RestoreSetsBack` | src/modules/admin/admin-takedown.service.ts:294-349 | A soft removal can be put back once, whatever came after it, a compile or a second removal too: the fields it set then read as just before it, and the others of the target as they do now. |
| `Takedown.TakedownService.Remove` | src/modules/admin/admin-takedown.service.ts:229-292 | The whole new state of a takedown: document, counters, removal, audit row and notice; nothing for a target missing, down or badly named. |
| `Takedown.TakedownService.Restore` | src/modules/admin/admin-takedown.service.ts:295-349 | The whole new state of a restore, or the error that changes nothing. |
| `Takedown.TakedownService.Lower` | src/modules/admin/admin-takedown.service.ts:243-256 | Deletes or hides the document and gives what is kept of it. |
| `Takedown.TakedownService.Raise` | src/modules/admin/admin-takedown.service.ts:310-332 | Reinserts the document or sets its fields back, with the reminders of a published event. |
| `Takedown.TakedownService.Record` | src/modules/admin/admin-takedown.service.ts:258-290 | The removal row, the audit row unless a report covers it, and the owner's notice. |
| `Takedown.TakedownService.AfterHard` | src/modules/admin/admin-takedown.service.ts:402-408 | Moves a capsule's count only for a memory wish of a capsule that exists. |
| `Takedown.TakedownService.AfterSoft` | src/modules/admin/admin-takedown.service.ts:410-419 | Asks for a list's recount or a reel's new compilation. |
| `Takedown.TakedownService.RecompileIfReleased` | src/modules/admin/admin-takedown.service.ts:421-429 | Only a released reel is set releasing and queued. |
| `Moderation.Existing` | src/modules/admin/schemas/report.schema.ts:72 | Finds the report already filed under a key, and nothing only if there is none. |
| `Moderation.ActedOnceRestoredOnce` | src/modules/admin/moderation.service.ts:692-739 | Over any run a report is acted on once at most and put back once at most, and no two reports share source, target and reporter. |
| `Moderation.StatusOnlyMovesOn` | src/modules/admin/moderation.service.ts:648-739 | From any state of a run to any later one, a status has only moved from open or reviewing to handled, or from resolved to dismissed. |
| `Moderation.ActAddsOneRow` | src/modules/admin/moderation.service.ts:692-739 | An action that succeeds adds its one audit row and handles its report alone, saying by whom, when and why; one that fails changes nothing. |
| `Moderation.RestoreAddsOneRow` | src/modules/admin/moderation.service.ts:648-688 | A restore adds its one row and dismisses its report alone, saying why; one that fails changes nothing. |
| `Moderation.RemovingTakesDown` | src/modules/admin/moderation.service.ts:742-764 | Acting with Remove suspends the person, and nobody else, or takes the content down by a removal that names the report, the moderator and the reason. |
| `Moderation.ApprovingLeavesUp` | src/modules/admin/moderation.service.ts:692-739 | Approving leaves every person and all content alone. |
| `Moderation.RestoringReactivates` | src/modules/admin/moderation.service.ts:648-688 | Restoring a person makes that person active, and changes nobody else. |
| `Moderation.PersonCanBeRestored` | src/modules/admin/moderation.service.ts:648-688 | A suspension can be lifted by its report if and only if the report is resolved and the person known. |
| `Moderation.BulkRemovesAll` | src/modules/admin/moderation.service.ts:620-642 | After a bulk Remove everyone and everything it could act on is suspended or down, whatever else it acted on. |
| `Moderation.OpenCanBeHandled` | src/modules/admin/moderation.service.ts:692-739 | A report can be acted on if and only if it is not handled yet, but that a person who is not known cannot be removed. |
| `Moderation.FiledOnce` | src/modules/admin/moderation.service.ts:91-119 | A report is there once it is filed; only one not there before is added, open and held by nobody. |
| `Moderation.SeverityRanks` | src/modules/admin/moderation.types.ts:42-60 | A check is one above a person who reports the same; people are above content, and what is sent to people above what they browse to. |
| `Moderation.ClaimTakes` | src/modules/admin/moderation.service.ts:457-490 | A claim succeeds if and only if the report is free, the claimer's own, or taken over, and makes it the claimer's; letting go makes it free. |
| `Moderation.ClaimHolds` | src/modules/admin/moderation.service.ts:457-490 | Over any run a claimed report stays its holder's, nobody else can claim it or let it go, until somebody takes it over or the holder lets go. |
| `Moderation.RemovalIsShown` | src/modules/admin/moderation.service.ts:189-449 | Over any run, what the preview reads of a kind's own fields shows a target with a removal in force as down, if no compile spoilt it; but a group gift that has a status is shown with that. |
| `Moderation.AuthorIsTold` | src/modules/admin/moderation.service.ts:199-449 | Whoever the preview gives as the author is whom a takedown tells, by two tables coded apart. |
| `Moderation.DistinctIsASet` | src/modules/admin/moderation.service.ts:629 | Each id named is acted on once. |
| `Moderation.DistinctInOrder` | src/modules/admin/moderation.service.ts:629 | In the order first named. |
| `Moderation.BulkSplitsExactly` | src/modules/admin/moderation.service.ts:620-642 | The distinct ids are split, each to one side, by whether the action could succeed beforehand. |
| `Moderation.BulkStep` | src/modules/admin/moderation.service.ts:629-640 | What became of the ids before does not change what becomes of the next. |
| `Moderation.RunKeepsTakedowns` | src/modules/admin/moderation.service.ts:742-764 | Whatever moderators do keeps what the takedowns promise of each target. |
| `Moderation.RunKeepsCounts` | src/modules/admin/moderation.service.ts:742-764 | And each capsule's count. |
| `Moderation.RestoringGivesContentBack` | src/modules/admin/moderation.service.ts:648-688 | A resolved content report can be restored if and only if a removal of that content is in force, and the content then reads as at the start, or, of a reel, as last compiled. |
| `Moderation.ModerationService.UpsertReport` | src/modules/admin/moderation.service.ts:91-119 | Files a report, or gives the one already filed under its key. |
| `Moderation.ModerationService.Claim` | src/modules/admin/moderation.service.ts:457-475 | Takes a report nobody else holds, or one it is told to take over. |
| `Moderation.ModerationService.Release` | src/modules/admin/moderation.service.ts:477-490 | Lets go of a report, unless another moderator holds it. |
| `Moderation.ModerationService.RemoveTarget` | src/modules/admin/moderation.service.ts:742-764 | Suspends a person or takes content down, and fails only for a person who is not there. |
| `Moderation.ModerationService.Act` | src/modules/admin/moderation.service.ts:692-739 | The whole new state of an action, or the error that changes nothing. |
| `Moderation.ModerationService.BulkAct` | src/modules/admin/moderation.service.ts:620-642 | The state after acting on each distinct id, and the two lists, exactly. |
| `Moderation.ModerationService.Restore` | src/modules/admin/moderation.service.ts:648-688 | The whole new state of a restore, or the error that changes nothing. |
| `Retention.ActiveDays` | src/modules/admin/admin-insights.service.ts:266-270 | The days each person was active, as the rows say, both ways. |
| `Retention.CohortOf` | src/modules/admin/admin-insights.service.ts:290-323 | A cohort's size, D1, D7 and D30 counts and its week figures are what the events say of its members; a week not over is left blank. |
| `Retention.Retention` | src/modules/admin/admin-insights.service.ts:231-335 | The whole report, cohorts and overall figures, is what the events say. |
| `Retention.RatesAreCounts` | src/modules/admin/admin-insights.service.ts:280-287 | The rate counts those eligible whose own day it was, by the events themselves. |
| `Retention.LastByOffset` | src/modules/admin/admin-insights.service.ts:1235-1244 | Each person's last activity by days after joining, as the rows say. |
| `Retention.WeeksBeginOnMonday` | src/modules/admin/admin-insights.service.ts:47-51 | A week is the seven days from a Monday that a day is in. |
| `Retention.EligibleOnceOver` | src/modules/admin/admin-insights.service.ts:280-287 | A person counts for day `n` once that day is over. |
| `Retention.BackInWeekMeans` | src/modules/admin/admin-insights.service.ts:295-306 | Back in week `k` means an event so many whole weeks after the day of joining. |
| `Retention.BackOnDayMeans` | src/modules/admin/admin-insights.service.ts:280-287 | Back on day `n` means that the day is over and an event falls on it. |
| `Retention.PctIsNearest` | src/modules/admin/admin-insights.service.ts:22-24 | A rate is the nearest tenth of a percent, the higher of two as near. |
| `Retention.JoinedInTheWeek` | src/modules/admin/admin-insights.service.ts:1198-1266 | The list of a cohort holds its own members with the times they joined. |
| `Retention.BackOn` | src/modules/admin/admin-insights.service.ts:1246-1254 | Those seen between two days after joining, in order, each with the last time by the events. |
| `Retention.RetentionPeople` | src/modules/admin/admin-insights.service.ts:1198-1266 | The list behind a figure: who the events say came back, in the users' order, with the last time each; an error for an unknown figure. |
| `Retention.InOneWeek` | src/modules/admin/admin-insights.service.ts:47-51 | Somebody who joined in the weeks shown is in one cohort and no other. |
| `Retention.SizesAddUp` | src/modules/admin/admin-insights.service.ts:290-332 | The cohorts' sizes add up to everyone who joined, if and only if nobody has a joining date past the week under way. |
| `Retention.RatesAddUp` | src/modules/admin/admin-insights.service.ts:280-332 | For each of D1, D7 and D30, those back and those eligible add up to the overall figures. |
| `Retention.OnlyTheWeekUnderWayIsOpen` | src/modules/admin/admin-insights.service.ts:295-306 | In each cohort's row exactly the last week is blank. |
| `Retention.FiguresAreLists` | src/modules/admin/admin-insights.service.ts:1194-1266 | Each figure that is not blank is the length of the list of people behind it. |
| `Retention.OneReport` | src/modules/admin/admin-insights.service.ts:231-335 | The events allow one report only. |
| `Retention.OneList` | src/modules/admin/admin-insights.service.ts:1246-1254 | And one list behind a figure, each with a time no event that counts is later than. |
| `Csv.CsvCell` | src/modules/admin/admin-explorer.util.ts:227-238 | A cell is its text, neutralised and quoted where it must be. |
| `Csv.ToCsv` | src/modules/admin/admin-explorer.util.ts:219-224 | A header and one line for each row, under the first row's columns. |
| `Csv.CsvReadsBack` | src/modules/admin/admin-explorer.util.ts:219-238 | A reader of RFC 4180, section 2, gets back the header and one record a row, every cell neutralised, if and only if no column name holds a quote, comma or line break and the last row is not one empty field. |
| `Csv.OneColumnReadAsTwo` | src/modules/admin/admin-explorer.util.ts:219-229 | A column whose name holds a comma is read back as two. |
| `Csv.NoRows` | src/modules/admin/admin-explorer.util.ts:220 | A file of no rows is read back as one header. |
| `Csv.PlainHeaderKept` | src/modules/admin/admin-explorer.util.ts:219-224 | With plain column names, nothing is lost but a last row that is one empty field. |
| `Csv.NameReadsAsItself` | src/modules/admin/admin-explorer.util.ts:220-221 | A column name printed as it is reads as itself if and only if it is plain. |
| `Csv.FileReadsBack` | src/modules/admin/admin-explorer.util.ts:221-223 | Every line is read back, but an empty last one is taken for the end of the line before. |
| `Csv.RecordReadsBack` | src/modules/admin/admin-explorer.util.ts:222 | A printed line is read back as its fields. |
| `Csv.FieldReadsBack` | src/modules/admin/admin-explorer.util.ts:237 | A printed cell is read back as its text. |
| `Csv.NothingRuns` | src/modules/admin/admin-explorer.util.ts:226-236 | No field starts with a character that a spreadsheet runs, and no other text is changed. |
| `Csv.SameFieldTwoTexts` | src/modules/admin/admin-explorer.util.ts:236 | Two texts print alike if and only if one is a formula and the other the same formula neutralised. |
| `Csv.TextOfEachKind` | src/modules/admin/admin-explorer.util.ts:227-235 | Text and numbers are printed as they are, the two flags differently, and null, undefined and the like blank. |
| `Csv.ListReadsBack` | src/modules/admin/admin-explorer.util.ts:231-232 | A list's cell, cut at its blanks, gives its items back, if none holds a blank. |
| `Payments.FilterMeaning` | src/modules/admin/group-gift-payments.ts:59-85 | What each of the six filters matches, under the database's reading of null and missing fields. |
| `Payments.FiltersAgree` | src/modules/admin/group-gift-payments.ts:25-85 | The one filter that matches a row is that of its state, if and only if the row is disputed, or its status is one of the four and a confirmed amount is not lost beside a claim. |
| `Payments.ReceivedOrPartial` | src/modules/admin/group-gift-payments.ts:25-85 | A confirmed row with a claim and no amount is received to the function and partial to the filters. |
| `Payments.AtMostOneState` | src/modules/admin/group-gift-payments.ts:59-85 | No row matches two filters. |
| `Payments.KindsAgree` | src/modules/admin/group-gift-payments.ts:47-92 | Of the three kinds exactly the one a row is given has a filter that matches it. |
| `Migrations.MigrationRunner.Ordered` | src/infra/migrations/migration.runner.ts:36-47 | The list sorted by id, or an error exactly when two share one. |
| `Migrations.MigrationRunner.Status` | src/infra/migrations/migration.runner.ts:54-61 | Every migration in order, with whether it is recorded. |
| `Migrations.MigrationRunner.Up` | src/infra/migrations/migration.runner.ts:64-100 | What up leaves of the database, and the ids applied if none failed. |
| `Migrations.MigrationRunner.Turns` | src/infra/migrations/migration.runner.ts:73-99 | The loop over those pending stops at the first that fails. |
| `Migrations.MigrationRunner.Turn` | src/infra/migrations/migration.runner.ts:77-95 | A record is written only after its body is through. |
| `Migrations.MigrationRunner.Down` | src/infra/migrations/migration.runner.ts:103-122 | What down leaves of the database, and its answer in each case. |
| `Migrations.SortInOrder` | src/infra/migrations/migration.runner.ts:37 | The sort puts the ids in the locale's order. |
| `Migrations.SortKeeps` | src/infra/migrations/migration.runner.ts:36-47 | The sort keeps the migrations, each as often as before. |
| `Migrations.UpRecords` | src/infra/migrations/migration.runner.ts:64-100 | Up records the pending ones before the first that fails and leaves the rest pending in order; none, if none fails. |
| `Migrations.RunsAreSound` | src/infra/migrations/migration.runner.ts:64-122 | Over any run, whatever throws, no body runs while its id is recorded and none is undone while it is not. |
| `Migrations.OnceRecorded` | src/infra/migrations/migration.runner.ts:25-26 | Over any run, a migration recorded is not run again until it has been rolled back. |
| `Migrations.RecordsAreBacked` | src/infra/migrations/migration.runner.ts:64-122 | Over any run, whatever throws, each record written comes right after its body ran to its end, each record removed right after its undoing did, and only known migrations run, and only those with a down are undone. |
| `Migrations.UndoableIs` | src/infra/migrations/migration.runner.ts:112-114 | A migration can be undone if and only if it is known and has a down. |
| `Migrations.UpAnswersWhatItRecorded` | src/infra/migrations/migration.runner.ts:64-100 | The ids up answers with are those it recorded, in the order it did. |
| `Migrations.DownRemovesGreatest` | src/infra/migrations/migration.runner.ts:103-122 | Down removes the greatest recorded id, or nothing, and exactly when. |
| `Migrations.DownKeepsPrefix` | src/infra/migrations/migration.runner.ts:102-122 | Down leaves a prefix if and only if what it removes is the last of the sorted list recorded. |
| `Migrations.RunsKeepPrefix` | src/infra/migrations/migration.runner.ts:64-122 | Where down can only ever undo the last of a prefix of the sorted list, every run keeps the recorded ids a prefix of it. |
| `Migrations.PrefixIsKept` | src/infra/migrations/migration.runner.ts:36-122 | All runs from an empty database keep a prefix if and only if, in every prefix of the sorted list, the greatest id in the database's order is the last or cannot be undone; migrations without a down included. |
| `Migrations.WhenOrdersAgree` | src/infra/migrations/migration.runner.ts:36-122 | That is so where the locale's order of the ids is the database's and, with every migration reversible, only there. |
| `Migrations.PrefixIsKeptIfReversible` | src/infra/migrations/migration.runner.ts:36-122 | With every migration reversible, all those runs keep a prefix if and only if the two orders agree on the ids. |
| `Migrations.FirstIsUndone` | src/infra/migrations/migration.runner.ts:102-109 | Two ids for which an up and a down undo the one applied first. |
| `Sessions.DenylistOutlives` | src/modules/admin/admin-token.service.ts:57-61 | A denylist entry made for an expiry lapses only after it, in whole seconds against milliseconds. |
| `Sessions.DenylistLapses` | src/modules/admin/admin-token.service.ts:57-61 | It is made for at least a second and lapses less than one after the expiry. |
| `Sessions.StepKeepsInv` | src/modules/admin/admin-sessions.service.ts:51-178 | Every step keeps what is known of tokens, records and denylist. |
| `Sessions.DeadStaysDead` | src/modules/admin/strategies/admin-jwt.strategy.ts:41-48 | A token denylisted past its expiry, or from before a cutoff, stays so. |
| `Sessions.EndedForGood` | src/modules/admin/admin-sessions.service.ts:119-178 | A session signed out or ended, at once, and one swept up by a sign-out everywhere, a reset or a disabling, if minted before its millisecond, is never accepted again, over any run, any number of steps falling in one millisecond. |
| `Sessions.SignInLasts` | src/modules/admin/admin-token.service.ts:34-55 | The token of an active admin is accepted, after any run, if and only if no step of it ended the session and the second a lifetime after its signing has not come; cutoffs in the millisecond of its minting aside. |
| `Sessions.SignInIsShown` | src/modules/admin/admin-sessions.service.ts:51-66 | Uninterrupted, its session is shown active for a lifetime, all the while the token is accepted and less than a second longer than that needs. |
| `Sessions.RecordTellsWhy` | src/modules/admin/admin-sessions.service.ts:119-178 | A record says why its session ended, by the step that first ended it, and no later one changes that. |
| `Sessions.ShownCanBeEnded` | src/modules/admin/admin-sessions.service.ts:119-148 | A session can be ended if and only if it is shown active to that admin; one whose token is accepted can. |
| `Sessions.LoginUnderWay` | src/modules/admin/admin.service.ts:73-86 | A sign-in past its checks when a reset or a sign-out everywhere falls gets a token that works, if and only if its admin is active when it mints, whatever came in between. |
| `Sessions.SameMillisecond` | src/modules/admin/admin-sessions.service.ts:150-169 | Signing out everywhere or a reset leaves accepted exactly the tokens that were and that were minted in that same millisecond. |
| `Sessions.HiddenByCrossing` | src/modules/admin/admin-sessions.service.ts:150-208 | A step leaves an accepted token's session shown as ended if and only if it is a sign-out everywhere or a reset in the millisecond of its minting, with its record already written. |
| `Sessions.AcceptedIsShown` | src/modules/admin/admin-sessions.service.ts:188-206 | A recorded session's token is accepted if and only if it is shown active, unexpired to the second, its admin active, and not minted before a cutoff its record came after; provided a record marked ended is of a dead token. |
| `Sessions.AcceptedIsActive` | src/modules/admin/admin-sessions.service.ts:188-208 | Over any run from an empty one, a recorded session's token that is still accepted is shown active if and only if no sign-out everywhere or reset fell in the millisecond of its minting with its record already written. |
| `Sessions.MovingClockNeverCrosses` | src/modules/admin/admin-sessions.service.ts:150-169 | With a clock that moves on at every step that never happens. |
| `Sessions.StartsAreDistinct` | src/modules/admin/admin-sessions.service.ts:51-66 | And no two records are then of one time, if none were. |
| `Sessions.AcceptedIsListed` | src/modules/admin/admin-sessions.service.ts:104-117 | It is listed as active if fewer than a hundred other sessions of the admin are as new or newer, and not if a hundred are newer; with no two records of one time, if and only if fewer than a hundred are newer. |
| `Sessions.SuperAlwaysRemains` | src/modules/admin/admin.service.ts:132-176 | Over any run of steps one at a time, an active super-admin remains. |
| `Sessions.UpdateIsAllowed` | src/modules/admin/admin.service.ts:132-176 | While there is an active super-admin, an update is let through if and only if it leaves one and takes no such role or access from who makes it. |
| `Sessions.UpdateTakesEffect` | src/modules/admin/admin.service.ts:132-176 | It makes of the admin what it asks, leaves the rest of that admin and everybody else. |
| `Sessions.OverlappingUpdates` | src/modules/admin/admin.service.ts:156-176 | Two updates of two admins, both let through before either is saved, leave an active super-admin if and only if one of the two still is one or there is a third. |
| `Sessions.OverlappingOnOne` | src/modules/admin/admin.service.ts:156-176 | Two such updates of one admin always leave one. |
| `Sessions.TwoAtOnce` | src/modules/admin/admin.service.ts:156-176 | Two super-admins who demote each other at once are both let through, and none remains. |
| `Sessions.AdminAuth.Validate` | src/modules/admin/strategies/admin-jwt.strategy.ts:41-48 | Accepts a token by its expiry, the denylist, the admin's status and the cutoff. |
| `Sessions.AdminAuth.MintToken` | src/modules/admin/admin-token.service.ts:34-55 | A token issued now and expiring, in whole seconds, a lifetime after it is signed. |
| `Sessions.AdminAuth.Login` | src/modules/admin/admin.service.ts:64-86 | A token and then its record for an admin who is active and whose password fits when it looks, whatever other calls do in between; for anyone else nothing changes. |
| `Sessions.AdminAuth.Deny` | src/modules/admin/admin-token.service.ts:57-61 | Denylists an id for what is left of its lifetime, one second at least. |
| `Sessions.AdminAuth.StartSession` | src/modules/admin/admin-sessions.service.ts:51-66 | The record of a sign-in. |
| `Sessions.AdminAuth.SignOut` | src/modules/admin/admin.service.ts:88-95 | Denylists the token for a full lifetime and marks the record. |
| `Sessions.AdminAuth.EndSession` | src/modules/admin/admin-sessions.service.ts:119-148 | Ends an active session, or says why not and changes nothing. |
| `Sessions.AdminAuth.EndAll` | src/modules/admin/admin-sessions.service.ts:172-178 | Marks the admin's open sessions, and counts them. |
| `Sessions.AdminAuth.SignOutEverywhere` | src/modules/admin/admin-sessions.service.ts:150-169 | Sets the cutoff and marks every open session. |
| `Sessions.AdminAuth.Reset` | src/modules/admin/admin.service.ts:184-191 | A new password sets the cutoff and marks every open session. |
| `Sessions.AdminAuth.UpdateAdmin` | src/modules/admin/admin.service.ts:132-176 | Changes an admin, or refuses by either lockout guard and changes nothing. |
| `Sessions.AdminAuth.List` | src/modules/admin/admin-sessions.service.ts:104-117 | The active of the latest hundred in order, and the latest twenty of the others. |
| `Catalog.CatalogService.CreateTerm` | src/modules/admin/admin-catalog.service.ts:587-595 | A new option ten past the last, or a refusal of a key already there. |
| `Catalog.CatalogService.Rename` | src/modules/admin/admin-catalog.service.ts:601-616 | A new label, and no other position. |
| `Catalog.CatalogService.Reorder` | src/modules/admin/admin-catalog.service.ts:794-814 | Writes every position anew, or refuses an order that names a stranger or repeats itself and changes nothing. |
| `Catalog.CatalogService.WritePositions` | src/modules/admin/admin-catalog.service.ts:810-814 | The bulk write: each option at ten times its place. |
| `Catalog.Rest` | src/modules/admin/admin-catalog.service.ts:808 | Those not named, as they were listed. |
| `Catalog.ReorderLists` | src/modules/admin/admin-catalog.service.ts:793-814 | The list after a reorder is a permutation: the options named, then the others as they were, each with a position of its own. |
| `Catalog.CreatedIsLast` | src/modules/admin/admin-catalog.service.ts:587-595 | A new option is last in every listing, and the others are listed as before. |
| `Catalog.CreatedAtItsPlace` | src/modules/admin/admin-catalog.service.ts:587-595 | After a reorder, or from nothing, a new option gets the position a reorder would give it at the end. |
| `Catalog.ListingIsOne` | src/modules/admin/admin-catalog.service.ts:440 | Where no two options share both position and label there is one listing. |
| `Catalog.RunIsListRun` | src/modules/admin/admin-catalog.service.ts:562-827 | Over any run of creations, renames and reorders, the listing by position and label is the plain list that the same steps make. |
| `Catalog.RunFromReorder` | src/modules/admin/admin-catalog.service.ts:562-827 | Whatever positions there were, the same holds from any reorder on. |
| `Catalog.RunOfCreations` | src/modules/admin/admin-catalog.service.ts:587-595 | Until then, options created are listed last, in the order they were made. |
| `Catalog.TitlesFollow` | src/modules/admin/admin-catalog.service.ts:562-827 | Over any run each option has the label last given it; no reorder mixes labels up, drops an option or adds one. |
| `Catalog.RenamedStays` | src/modules/admin/admin-catalog.service.ts:601-616 | A new label moves nothing once positions are distinct. |
| `Catalog.ReorderTwice` | src/modules/admin/admin-catalog.service.ts:793-814 | The same reorder again changes nothing. |
| `Catalog.OrderedTwice` | src/modules/admin/admin-catalog.service.ts:807-809 | Named options put first are already first. |

## Left out

- `formatEventMoment`, masks, labels and message texts: presentation only.
- The range of JavaScript dates (100 million days either side of 1970) and years past 9999 in day names: days are unbounded here.
- `cache.service.ts` beyond its timed get, set and delete: `wrap` and `delByPattern`, and with them the caching of the retention page, which can show figures older than the list behind them.
- Redis failures other than a store, delete or release that never arrives; a lock asked for with a lifetime that is not positive, which Redis refuses.
- `TryAcquire`: the delays between attempts are whatever the other clients do in them; no bound on waiting is stated.
- `AtMostOneHandler`: holds of runs where a beaten caller still finds a record and no marker lapses under a handler; those are exactly the runs that keep every marker in place.
- A request with no `@Idempotent()` mark, and a body's fingerprint beyond its being equal or not.
- Takedowns and moderation are one step a call: Mongo writes of two calls at once are not interleaved.
- The events, wishlists and users services: calling an event off sets its two fields, a recount is asked for, a suspension sets a status; their own effects are not modelled.
- What a compile does beyond the reel's document, and compiles that fail.
- What the apps' own users do to content between takedowns.
- Two spellings of one object id for one target; a media file swept up before its takedown is undone.
- Report notes, queue pages, the offender panel and, of a target's preview, all but its state and author: database reads.
- Retention rounds percentages of exact fractions; the doubles the service divides could round a tie the other way.
- `Retention`: takes users, rows and events as the queries give them; the funnel, gifting and other insight pages, `median` and the paging of `people` are not modelled.
- `CsvReadsBack`: the reader takes only LF for a line break and any other character as text, so a bare CR inside a field is not a break; JSON and ISO texts are the runtime's own.
- `FiltersAgree`: takes the dates and the amounts to be of the types the schema keeps, or null or missing.
- The locale's comparison of ids is any total order in which different ids may tie; migrations' own effects and two runners at once are not modelled.
- `RunsAreSound`: a body whose record could not be written runs again on the next up, as in the code.
- Signing and checking of tokens, passwords, the IP allowlist, `touch`, the login throttle and the removal of session records 30 days after expiry.
- `SignInLasts`: like `EndedForGood`, leaves out cutoffs that fall in the very millisecond of the token's minting.
- `EndedForGood`: of a token minted in the very millisecond of a cutoff it promises nothing; `SameMillisecond` says what becomes of it.
- `AcceptedIsListed`: takes a record marked ended to be of a dead token, which `AcceptedIsActive` shows of every session no cutoff crossed; where records share a time, those a tie may put first can push one off the list.
- Reading the clock more than once in a call: a call of the retention page or of an admin's session reads one time, or one and a later one where the difference shows.
- An admin's name, allowlist and creation.
- `SuperAlwaysRemains`: one update at a time; `OverlappingUpdates` says exactly what two at once leave.
- `WallTimeIsFound`: the guess's offsets must be those of the year 100 or later; the first days after its new year are covered neither by it nor by `EarlyWallTimeIsMissed`.
- `EarlyWallTimeIsMissed`: says nothing of wall times within the greatest offset of the new year of 100; one in the hours before it can be read exactly.
- `NextLocalMidnightIsTheNext`: the clock falls back by no more than a day, and changes by no more than a day around the two midnights, between this new year and next year's midnight.
- `CreateTerm`: the checks of key pattern, label and meta, pictures, retiring and usage counts.
