# Proofs about the market-data ingester

A Dafny model of the parts of the ingester that keep state or walk time, with proofs of
what their comments and documentation promise. `dafny verify dfyconfig.toml` checks all of it.

- `ArchiveProtocol`, `RetentionArchive`, `CivilMonths`: archive before delete. The protocol
  is a machine whose steps interleave with other sessions' commits, with errors and with
  crashes; `Site` runs one pass over it and is proved to be a run of the machine.
- `Verdicts`, `CoverageHistory`: the run-length encoded memory of coverage verdicts, proved
  to be the encoding of every compute carried forward, through any mix of records and trims.
- `JobQueue`, `LateMarks`, `RetryDrain`: the job table with its lineages, the bulk insert,
  marks that come late, the retry prescription and its draining.
- `Doctor`, `NightlyHeal`: the capped continuity prescription, the heal, and what night after
  night of healing comes to when absent and narrow days are measured anew each time.
- `HoleDetector`: thin and narrow days, and the accounting of the continuity axis.
- `TradingCalendar`, `Session`: the three answers to which session it is.
- `QueueHistory`, `IngestHistory`: the queue sampler and the daily history, from the jobs to
  the page.
- `FinancialStatements`, `CorporateActions`: the writers that make part of a table equal to a
  vendor answer.
- `SlowCache`: the background cache as an interleaving machine, with an object whose lock
  sections are its actions.
- `FastReads`, `OptionTicker`, `SymbolRename`: fast reads against simple ones, the option key
  and its printer, and the resolution of renames.
- `Ordering`, `Texts`, `Wrappers`: sorting, texts and optional values.

A method models code that loops or updates and is proved against a function; what the
source promises is proved of that function or of the machine. Failing calls, clocks, what
other sessions commit and what other threads do in between are parameters.

## Hypotheses

- Archive: a commit that raises did not commit (the code unlinks the file on that path,
  `retention_archive.py:389-394`), and the one-second stamp differs between passes
  (`retention_archive.py:328`). Within a pass names are proved distinct.
- Database reads in the archive follow section 13.2.2 (Repeatable Read) of the PostgreSQL
  documentation.
- Verdict memory: calls are serial, the database clock does not run backwards between
  them, and two maps have one digest exactly when they are equal.
- Job order: `JobQueue.RunOrderly` takes workers to mark only rows they run. Without this the
  order holds exactly when every mark is harmless (`LateMarks.MarkKeepsOrderIff` for one mark,
  `LateMarks.RunOrderIff` for a run).
- Retries that stay (`RetryDrain.NeverOfferedAgain`, `LateMarks.RetiredForGood`): the trim's
  row-count backstop (`scheduler/enqueue.py:478-496`) does not fire; it removes finished rows by
  batches, so it could take a newer row and leave the older one.
- Nights: every refill prescribed lands before the next night, the vendor's answer for a day
  does not change, and the window stands still.
- Retries: error texts are ordered by the codes of their characters, as the C collation does.
- Sampler: two intervals fit into the 48 hours finished rows are kept; samples are taken in
  the order of time; a job finishes no earlier than it was created, shows as finished no
  earlier than it shows, and finishes once. A late mark of a finished row breaks the last
  (`QueueHistory.SecondFinishCountsTwice`). That a job has committed when its window is read
  is no hypothesis: every count says for which jobs it holds.

## Where the code, its documentation or its own figures differ

- `session.py:3-24` speaks of 19:30 New York. In winter the UTC date rolls over at 19:00, and
  from then on `quality.py:94-102` counts today as completed (`Session.TodayResolvesFrom`,
  `Session.WinterResolvesEarly`).
- `slow_cache.py:20-21` says a caller arriving during a refresh is told `computing`. A reader of
  a fresh answer is told it is not (`SlowCache.FreshWhileRefreshing`). A thread that does not
  start leaves the flag set for ever (`SlowCache.FlagClearsIff`). The refresh `start_refresh` says
  is in flight may be over when it says so (`SlowCache.OverBeforeReturn`).
- `mark_failed` updates by id alone, so a worker that was given up on can revive a finished
  row; the retry of a newer failed row is then deduplicated until the revived row has
  finished (`LateMarks.RetryStallsIff`, `LateMarks.LateMarkStallsRetry`). It can also fail an
  old row again, which is then offered a second time (`LateMarks.LateFailureIsOfferedAgain`).
- The doctor offers failed jobs for retry by kind, and one error text that says the plan does
  not cover the data, if it sorts first, holds back every failure of the kind, transient ones
  too (`RetryDrain.DrainsIff`). A transient failure older than it ages out unretried
  (`RetryDrain.OneRefusalStopsAllIff`).
- `doctor.py:542-543` says three nights clear nine days. That holds for absent days the vendor
  holds (`NightlyHeal.DueClearsOldestFirst`). Three older days no refill can fill keep every
  newer one from being prescribed (`NightlyHeal.LeftAreStuck`), and on a dataset judged on
  breadth a refill can make another session narrow (`NightlyHeal.RefillMakesAnotherNarrow`).
- `queue_history.py:90-98` takes a closed window to be wholly in the past. Stamps are the start
  of their transaction, so a batch still open at the read is in no sample
  (`QueueHistory.LateCommitIsInNoSample`, `QueueHistory.RunRowExactIff`).
- The accrual walk goes up from the oldest day, so past its limit the newest day it reports
  is not the newest (`FastReads.AccrualIsRightIff`, `FastReads.LimitHidesTheNewest`).
- `resolve_storage` looks at no root after its bound, so a successor listed behind four other
  roots is not found (`SymbolRename.FifthRootIsMissed`, `SymbolRename.RenameIsMissedIff`).
- The kind totals of the daily history count rows dated after the last day listed, the day
  totals do not (`IngestHistory.TotalsAgreeIff`, `IngestHistory.LaterRowInTotalsOnly`).

## Model

| member | source | states |
|---|---|---|
| `CivilMonths.MonthStarts` | src/bifrost_market_data/retention_archive.py:281 | The first day of each month of a year, from the lengths of the months before it |
| `CivilMonths.YearStarts` | src/bifrost_market_data/retention_archive.py:281 | The ordinal of every first of January in closed form, with a leap day every four years, but not every hundred, but every four hundred |
| `CivilMonths.NextMonthStep` | src/bifrost_market_data/retention_archive.py:281 | First of the month plus 32 days, set back to day 1, is the first of the next month, for every Gregorian month |
| `RetentionArchive.ChunkEndIsLeast` | src/bifrost_market_data/retention_archive.py:275-282 | A range ends at the least of the cutoff, the first of the next month and the start plus the span, the span being a day at least |
| `RetentionArchive.ChunkInOneMonth` | src/bifrost_market_data/retention_archive.py:275-282 | A range is never empty, stops at the cutoff and lies in one month, for any start, cutoff and span |
| `RetentionArchive.ChunksTile` | src/bifrost_market_data/retention_archive.py:469-496 | The ranges of a pass tile [oldest, cutoff): every day of it and no other is in exactly one, and they come in order |
| `RetentionArchive.MonthlyChunks` | src/bifrost_market_data/retention_archive.py:275-282 | With the month span, from any first day to any cutoff, each calendar month goes in exactly one range, the whole part of it that is due |
| `RetentionArchive.OnlyWritersAdd` | src/bifrost_market_data/retention_archive.py:306-406 | In any run, a key in the table afterwards was there before or another session wrote it |
| `RetentionArchive.Site.BeginRange` | src/bifrost_market_data/retention_archive.py:341-352 | The first statement fixes the snapshot and a cursor over exactly the matching rows, each once |
| `RetentionArchive.Site.FetchBatch` | src/bifrost_market_data/retention_archive.py:352-366 | A fetched batch moves from pending to read and is appended to the partial file; if nothing is lost the file holds as many rows as were read |
| `RetentionArchive.Site.CountAndDelete` | src/bifrost_market_data/retention_archive.py:367-386 | Goes on only if the file holds as many rows as were read and the DELETE matches as many; otherwise rolls back with no file; with nothing failing it always goes on |
| `RetentionArchive.Site.Publish` | src/bifrost_market_data/retention_archive.py:387-394 | Either the file is final with as many rows as were read and the range holds only rows committed after its snapshot, or the files are as before |
| `RetentionArchive.Site.ArchiveRange` | src/bifrost_market_data/retention_archive.py:306-434 | Every outcome is a run of the protocol from the old state to the new; an archived range has one new file with the counted rows, and what is left in it was committed after its snapshot; an error before the commit leaves no file; a quiet run never errs; no row outside the range, and no 16:00 row of an intraday range, is deleted or exported |
| `RetentionArchive.Site.OldestDay` | src/bifrost_market_data/retention_archive.py:240-259 | The oldest expired day, or none when nothing is expired |
| `RetentionArchive.Site.TakeRange` | src/bifrost_market_data/retention_archive.py:476-496 | One turn of the pass takes the next range of the tiling: cleared and reported, or the error and what it left |
| `RetentionArchive.Site.ArchivePastWindow` | src/bifrost_market_data/retention_archive.py:437-512 | A pass without error or budget stop leaves before the cutoff only rows committed after their own range's snapshot, or meanwhile on a day before the oldest it saw; no row from the cutoff on, and no 16:00 row of an intraday pass, is deleted or exported; its ranges are a prefix of the tiling, as many as the budget allowed; the days, rows and files it reports are those it added; file names within a pass never repeat even if the stamp does |
| `ArchiveProtocol.StepKeeps` | src/bifrost_market_data/retention_archive.py:341-406 | The invariant survives every step: of the archive, of other sessions, of an error between any two steps, of a crash |
| `ArchiveProtocol.ArchiveNeverMisses` | src/bifrost_market_data/retention_archive.py:21-28 | After any run whatever, the last committed value of every key ever written is in the table or in a final file |
| `ArchiveProtocol.RunKeepsCoverage` | src/bifrost_market_data/retention_archive.py:21-28 | A row held by the table or a file stays held until a session writes another value over its key: table and files together only grow |
| `ArchiveProtocol.RunKeepsFile` | src/bifrost_market_data/retention_archive.py:21-28 | A final file whose transaction has ended stays as it is in every run, whatever anyone writes |
| `ArchiveProtocol.DeletedRowsWereExported` | src/bifrost_market_data/retention_archive.py:12-20 | Only a commit removes rows, each is in the file that became final, and that file has exactly as many rows as the DELETE removes |
| `ArchiveProtocol.SnapshotCount` | src/bifrost_market_data/retention_archive.py:14-17 | Under the snapshot the DELETE always matches exactly the rows the cursor read |
| `ArchiveProtocol.TouchedAccumulates` | src/bifrost_market_data/retention_archive.py:15-17 | Whatever another session commits while the transaction runs is remembered as changed since the snapshot |
| `ArchiveProtocol.LateRowsSurvive` | src/bifrost_market_data/retention_archive.py:15-17 | A row committed to the range after the snapshot survives the delete with its latest value |
| `ArchiveProtocol.ArchiveMayHoldTwice` | src/bifrost_market_data/retention_archive.py:21-24 | A concrete crash between rename and commit, and the next night, leave one row in two files |
| `ArchiveProtocol.ReusedNameLosesRows` | src/bifrost_market_data/retention_archive.py:26-27 | Were a final name used again, a row would be lost: the hypothesis on the stamp is needed |
| `Verdicts.ComputeDiff` | src/bifrost_market_data/verdicts.py:220-246 | The loop builds exactly the listed changes, dataset by dataset in name order |
| `Verdicts.DiffExact` | src/bifrost_market_data/verdicts.py:220-246 | A change is listed exactly when its dataset and axis hold different verdicts in the two maps |
| `Verdicts.DiffPatches` | src/bifrost_market_data/verdicts.py:220-246 | Applying the diff of a and b to a gives b on the four axes |
| `Verdicts.DiffMirrors` | src/bifrost_market_data/verdicts.py:204-246 | The diff read backwards is the same list with from and to, regressed and recovered swapped |
| `Verdicts.DiffEmptyIffEqual` | src/bifrost_market_data/verdicts.py:220-246 | On well-formed maps the diff is empty exactly when they are equal |
| `Verdicts.DirectionsAreRanked` | src/bifrost_market_data/verdicts.py:204-217 | A direction is given exactly between two ranked verdicts, so never to or from boundary or unknown: ok is best, thin is worst |
| `CoverageHistory.MergeUnread` | src/bifrost_market_data/coverage_history.py:84-107 | The loop over the unread datasets builds the carried-forward map |
| `CoverageHistory.UnreadFlapChangesNothing` | src/bifrost_market_data/coverage_history.py:84-107 | A compute reproduces the head exactly when it agrees with it everywhere but on unread datasets the head had judged |
| `CoverageHistory.RunLengthAnswers` | src/bifrost_market_data/coverage_history.py:130-166 | The encoding answers for every compute of the naive log, with one span per change, starting and ending at computes of its stretch |
| `CoverageHistory.RunLengthInOrder` | src/bifrost_market_data/coverage_history.py:130-166 | Neighbouring spans differ, and their ends follow the clock |
| `CoverageHistory.RowsOrdered` | src/bifrost_market_data/coverage_history.py:130-166 | last_seen_at never decreases in row order, neighbours differ, and the head is the last effective map |
| `CoverageHistory.LatestTwo` | src/bifrost_market_data/coverage_history.py:72-82 | The two newest rows by (first_seen_at, id), in whatever order the table gives them |
| `CoverageHistory.Store` | src/bifrost_market_data/coverage_history.py:130-166 | Seeing the head again or inserting a row keeps the table the encoding of the log |
| `CoverageHistory.CoverageLog.Record` | src/bifrost_market_data/coverage_history.py:110-189 | Each call adds the compute carried forward over the head to the log, keeps the table its run-length encoding, and reports the two newest distinct maps; an unread dataset the head had judged keeps the head's verdicts and every other has this compute's; the head is seen again, as by every unread flap, or one row is added; a failed call changes nothing |
| `CoverageHistory.DeleteExpired` | src/bifrost_market_data/coverage_history.py:226-244 | What the trim deletes is a prefix, all of it last seen before the cutoff, and never the newest row |
| `CoverageHistory.CoverageLog.TrimSamples` | src/bifrost_market_data/coverage_history.py:226-255 | After a trim the table is still the end of the encoding, head included |
| `CoverageHistory.ReportNamesAChange` | src/bifrost_market_data/coverage_history.py:168-189 | Once there is an earlier distinct map a report on well-formed maps names a change |
| `CoverageHistory.TableAnswers` | src/bifrost_market_data/coverage_history.py:192-223 | The table answers for every compute whose stretch the trim has not dropped |
| `JobQueue.StepOneActive` | src/bifrost_market_data/schema/ddl.py:874-879 | Under inserts, claims, marks (late ones too), reclaims and trims no lineage ever has two active rows |
| `JobQueue.RunOrderly` | src/bifrost_market_data/worker/claim.py:109-316 | In every run where workers mark only rows they run, an active row is the newest of its lineage and rows finish in id order |
| `JobQueue.OneOfferPerLineage` | src/bifrost_market_data/doctor.py:1948-1976 | At most one failed row of a lineage is offered |
| `JobQueue.NewestDoneMeansIdle` | src/bifrost_market_data/doctor.py:1948-1951 | A failed row that is its lineage's newest has no active row beside it, so its retry is never deduplicated away |
| `JobQueue.InsertAllExtends` | src/bifrost_market_data/scheduler/enqueue.py:75-148 | A bulk insert changes no old row, adds only pending rows of lineages that had no active one, and leaves every lineage named active |
| `JobQueue.OfferedAfterInsert` | src/bifrost_market_data/doctor.py:1948-1976 | After a bulk insert a failed row is still offered exactly when its lineage was not in the batch |
| `JobQueue.FoldInsertsSame` | src/bifrost_market_data/scheduler/enqueue.py:88-112 | Folding duplicate keys of a batch first gives the same table as inserting row by row |
| `JobQueue.JobTable.InsertJobsBulk` | src/bifrost_market_data/scheduler/enqueue.py:75-148 | Folding, inserting and mapping the ids back gives the table and the ids of inserting one row at a time |
| `JobQueue.JobTable.RetryJobs` | src/bifrost_market_data/doctor.py:2348-2370 | Inserts exactly the specs of the failed rows named, and counts how many were new |
| `JobQueue.JobTable.MarkJobFailed` | src/bifrost_market_data/worker/claim.py:284-316 | Only the row named changes, its lineage keeps one active row at most, and a requeue raises exactly when another row of the lineage is active |
| `LateMarks.MarkKeepsOrderIff` | src/bifrost_market_data/worker/claim.py:195-316 | A done or failed mark, late or not, keeps the queue in order exactly when it is harmless: a requeue with no newer row, or a finish before which no newer row finished |
| `LateMarks.RunOrderIff` | src/bifrost_market_data/worker/claim.py:195-316 | Over a whole run the order holds at every moment exactly when every mark is harmless as it comes |
| `LateMarks.OwnedIsHarmless` | src/bifrost_market_data/worker/claim.py:195-316 | A worker that marks a row it still runs does no harm |
| `LateMarks.RetiredStaysIff` | src/bifrost_market_data/worker/claim.py:195-316 | A step keeps a row retired (taken over by a newer one, or finished too long ago) exactly when it does not mark it, is refused, or finishes it beside a newer row |
| `LateMarks.RetiredIsOfferedIff` | src/bifrost_market_data/doctor.py:1948-1976 | A step brings a retired row back into the offer exactly when it fails it for good with no newer row of its lineage |
| `LateMarks.RetiredForGood` | src/bifrost_market_data/doctor.py:1948-1951 | A retired row is never offered in a run whose marks do no harm and spare it |
| `LateMarks.OwnedRunsSpare` | src/bifrost_market_data/worker/claim.py:195-316 | Runs in which workers mark only rows they run are such runs |
| `LateMarks.RetryStallsIff` | src/bifrost_market_data/doctor.py:2348-2370 | The retry of an offered row leaves it offered exactly when an older row of its lineage is active |
| `LateMarks.LateMarkStallsRetry` | src/bifrost_market_data/worker/claim.py:284-316 | A late mark revives an older row, and the newer failed row's retry changes nothing until the revived row has finished |
| `LateMarks.LateFailureIsOfferedAgain` | src/bifrost_market_data/worker/claim.py:284-316 | A late failure of an older row breaks the finish order with no requeue, and the row, retried long since, is offered again after a trim |
| `RetryDrain.LeastErrorDecides` | src/bifrost_market_data/doctor.py:1991 | Whether a kind is refused is decided by whichever offered row has the least error text |
| `RetryDrain.ErrorTextDecides` | src/bifrost_market_data/doctor.py:1991-2014 | When a least error text says not entitled or upgrade your plan, anywhere and in any case of letters, nothing is prescribed; otherwise the newest min(50, n) rows are |
| `RetryDrain.PrescribedIsNewest` | src/bifrost_market_data/doctor.py:1948-2014 | Nothing is prescribed for a refused kind, else the newest min(50, n) offered rows, each once, newest first |
| `RetryDrain.HealClearsItsOffer` | src/bifrost_market_data/doctor.py:2348-2370 | A heal takes exactly the rows prescribed off the offer: none when refused, else 50 or all |
| `RetryDrain.NeverOfferedAgain` | src/bifrost_market_data/doctor.py:1948-1951 | A row once healed is never offered again in owned runs, nor in any run whose marks do no harm and spare it |
| `RetryDrain.HealsDrain` | src/bifrost_market_data/doctor.py:1948-2014 | With heals alone n offered rows come down by 50 a heal until one heal is refused, and then stay |
| `RetryDrain.DrainsIff` | src/bifrost_market_data/doctor.py:1991-2013 | With heals alone m of them leave max(0, n - 50m) of n failed lineages if and only if no stage before the m-th is refused, which the queue tells beforehand |
| `RetryDrain.RefusedNeverDrains` | src/bifrost_market_data/doctor.py:1991-2013 | Heals change nothing for a kind whose offer is refused |
| `RetryDrain.OneRefusalStopsAllIff` | src/bifrost_market_data/doctor.py:1991-2013 | Of two offered failures of a kind, the one the plan does not cover keeps the transient one from being retried, whatever heals and however much time passes, exactly when it finished no earlier |
| `RetryDrain.OfferDrains` | src/bifrost_market_data/doctor.py:2348-2370 | If nothing fails anew, m heals that are not refused leave at most max(0, n - 50m) of n failed lineages, whatever the queue does between |
| `Doctor.ContinuityFindings` | src/bifrost_market_data/doctor.py:631-731 | One fixable finding for each of the three oldest due sessions, each with the refill of its own day; none fixable when nothing is due |
| `Doctor.NarrowSessions` | src/bifrost_market_data/doctor.py:641-658 | The narrow sessions are those narrow_days flags on the calendar days of the breadth read, from the window's start to before the session |
| `Doctor.GroupPrescriptions` | src/bifrost_market_data/doctor.py:2164-2176 | Prescriptions have pairwise distinct fixes and each lists all and only the fixable findings with its fix |
| `Doctor.Heal` | src/bifrost_market_data/doctor.py:2267-2345 | A heal runs the fix of every chosen executable prescription exactly once; a dry run runs nothing |
| `Doctor.ChosenFindingIsHealed` | src/bifrost_market_data/doctor.py:2281-2333 | Every fixable finding asked for is repaired by its prescription |
| `NightlyHeal.TonightIsOldest` | src/bifrost_market_data/doctor.py:694-697 | An absent or narrow day is prescribed tonight exactly when fewer than three due days are older |
| `NightlyHeal.Settles` | src/bifrost_market_data/doctor.py:551-731 | With absent and narrow days measured anew every night and whatever the vendor holds, after as many nights as the window has sessions nothing changes any more, and what is still prescribed is beyond help: absent at the vendor, or narrow with all the vendor has |
| `NightlyHeal.LeftAreStuck` | src/bifrost_market_data/doctor.py:539-544 | On a dataset not judged on breadth the days left in the end are exactly those the vendor lacks and those behind three such |
| `NightlyHeal.DueClearsOldestFirst` | src/bifrost_market_data/doctor.py:539-544 | On such a dataset, as long as the vendor holds what is asked for, k absent days go oldest first, three a night, and are gone after ceil(k/3) nights and not before |
| `NightlyHeal.SteadyFeedClears` | src/bifrost_market_data/doctor.py:641-697 | On a dataset judged on breadth whose vendor holds every absent and short session at steady counts, nothing is due after as many nights as there are such sessions, and it stays so |
| `NightlyHeal.NightAddsNone` | src/bifrost_market_data/doctor.py:641-697 | On such a feed a night adds no due day when every short session is due already |
| `NightlyHeal.RefillMakesAnotherNarrow` | src/bifrost_market_data/doctor.py:641-697 | On such a feed one absent day is due, its refill makes another session narrow, and two nights are needed |
| `HoleDetector.ThinDays` | src/bifrost_market_data/continuity.py:66-93 | The loop flags exactly the days below the floor of the trailing median |
| `HoleDetector.NarrowDays` | src/bifrost_market_data/continuity.py:96-127 | The loop flags exactly the days below the trailing floor that some day soon after is far above, or that nothing follows |
| `HoleDetector.SortDaysSorts` | src/bifrost_market_data/continuity.py:84 | Any read is put in the order of its days, with nothing lost |
| `HoleDetector.MedianRanks` | src/bifrost_market_data/continuity.py:84-88 | The median is half the sum of the two middle values by rank |
| `HoleDetector.ThinListedIff` | src/bifrost_market_data/continuity.py:66-93 | A day is listed thin exactly when it has enough days before it and is below the floor of the median of the last neighbourhood of them |
| `HoleDetector.NarrowListedIff` | src/bifrost_market_data/continuity.py:96-127 | A day is listed narrow exactly when it is so, and is the newest or far below some day of the neighbourhood after it |
| `HoleDetector.ListedHoleSays` | src/bifrost_market_data/continuity.py:90-127 | A listed hole gives the day's count and the whole part of the median it was judged against |
| `HoleDetector.LastingStepIsNoHole` | src/bifrost_market_data/continuity.py:96-113 | A day none of the neighbourhood after it is far above is not listed narrow, whatever comes later |
| `HoleDetector.MedianAtLeast` | src/bifrost_market_data/continuity.py:84-88 | When fewer than half the values are below a level, neither is the median |
| `HoleDetector.GrowthIsNoHole` | src/bifrost_market_data/continuity.py:96-113 | On a series that never falls neither test flags a day |
| `HoleDetector.StepDownClears` | src/bifrost_market_data/continuity.py:96-113 | On a series that never rises only the newest day can be flagged narrow |
| `HoleDetector.HoleIsFlagged` | src/bifrost_market_data/continuity.py:114-127 | After a full neighbourhood at a level, a hole no longer than the neighbourhood that recovers is flagged on each day of the first half |
| `HoleDetector.HoleIsListed` | src/bifrost_market_data/continuity.py:114-127 | Each of those days is in the list narrow_days gives |
| `HoleDetector.DoctorSeesHole` | src/bifrost_market_data/continuity.py:96-127 | With the doctor's parameters the first min(k, 5) days of a hole of k <= 10 are flagged |
| `HoleDetector.NarrowIsThin` | src/bifrost_market_data/continuity.py:66-127 | For one ratio narrow days are thin days |
| `HoleDetector.ThinIsCausal` | src/bifrost_market_data/continuity.py:84-92 | A day's thin verdict reads no later day |
| `HoleDetector.NotDueChangesNothing` | src/bifrost_market_data/continuity.py:375-400 | Holding out days not yet due changes no verdict on the days that are |
| `HoleDetector.MeasureAccounts` | src/bifrost_market_data/continuity.py:375-442 | Days present and days absent add up to the sessions of the observed span; judged and off-calendar days add up to the days read |
| `TradingCalendar.SessionsByTheWeek` | src/bifrost_market_data/trading_calendar.py:89-107 | A day is a session exactly when it is Monday to Friday, counted from Monday 5 January 2026, and not closed |
| `TradingCalendar.IterWeekdaysExcluding` | src/bifrost_market_data/trading_calendar.py:89-107 | The backward walk returns, ascending, the last n sessions of the last max(4n, n + 60) days, or all of them |
| `TradingCalendar.ExpectedTradingDays` | src/bifrost_market_data/trading_calendar.py:124-145 | The forward walk lists, ascending, exactly the weekdays of the range that are not closed |
| `TradingCalendar.FetchRecentTradingDays` | src/bifrost_market_data/trading_calendar.py:110-121 | The holidays it reads cover every day the walk visits |
| `TradingCalendar.RecentIsTailOfExpected` | src/bifrost_market_data/trading_calendar.py:89-145 | The backward walk is the tail of the forward one, no session skipped |
| `TradingCalendar.WalkReturnsAll` | src/bifrost_market_data/trading_calendar.py:96-107 | n sessions are returned whenever the window holds at most 5*floor(max(4n, n+60)/7) - n holidays |
| `Session.ResolvedIs` | src/bifrost_market_data/session.py:29-63 | What resolve_session answers on any calendar, closures of any length included |
| `Session.ChainIs` | src/bifrost_market_data/trading_calendar.py:148-164 | What chain_session answers on any calendar |
| `Session.ResolvedMeaning` | src/bifrost_market_data/quality.py:82-102 | The resolved session is the last one up to today or up to yesterday, and is called today's exactly from 19:30 of a session |
| `Session.SessionsNeverGoBack` | src/bifrost_market_data/session.py:52-63 | On a fixed calendar neither answer ever goes back as time advances |
| `Session.ChainAgainstTables` | src/bifrost_market_data/doctor.py:1564 | The chain is never behind the tables, at most one session ahead, and equal exactly outside the hours from a session's open until it becomes current |
| `Session.UnreadDayIsAWeekday` | src/bifrost_market_data/session.py:53-57 | When the calendar cannot say whether today is a session, Monday to Friday counts as one |
| `Session.TodayResolvesFrom` | src/bifrost_market_data/quality.py:94-102 | A session resolves to itself from 19:30 in summer and already from 19:00 in winter |
| `Session.WinterEveningIs` | src/bifrost_market_data/quality.py:94-102 | Day 739622 is the sixth of January 2026 by the civil calendar |
| `Session.WinterResolvesEarly` | src/bifrost_market_data/quality.py:94-102 | On 6 January 2026 at 19:00, half an hour early, the session of the day is the resolved one |
| `QueueHistory.ReadCountsShown` | src/bifrost_market_data/queue_history.py:43-69 | A read of a window not trimmed yet counts exactly its jobs that had committed by then |
| `QueueHistory.ShowsForTwoDays` | src/bifrost_market_data/scheduler/enqueue.py:455-476 | A job shows from its commit on, as finished from that commit on, and for the 48 hours after its finish |
| `QueueHistory.WindowExactIff` | src/bifrost_market_data/queue_history.py:43-69 | The count is the whole window exactly when every job of it had committed by the read |
| `QueueHistory.ClosedWindowIsStableIff` | src/bifrost_market_data/queue_history.py:43-69 | A window is counted the same at two moments exactly when none of its jobs commits between them |
| `QueueHistory.Write` | src/bifrost_market_data/queue_history.py:130-153 | The upsert leaves the old rows overwritten by exactly the new ones |
| `QueueHistory.SampleTable.TakeSample` | src/bifrost_market_data/queue_history.py:77-127 | One row for each kind with a live job or one that moved in the window that just closed, with its waiting and running jobs and those created, done and failed in the window; every other row as it was; a failure changes nothing |
| `QueueHistory.SampleTracks` | src/bifrost_market_data/queue_history.py:90-127 | Sampling or re-sampling leaves every row what was read of its window last |
| `QueueHistory.RunTracks` | src/bifrost_market_data/queue_history.py:77-127 | After any run of samples each window's rows are what was read of it last, a kind without a row counting nothing |
| `QueueHistory.RunRowExactIff` | src/bifrost_market_data/queue_history.py:77-127 | A row is exact exactly when every job of its window had committed when the window was last read |
| `QueueHistory.WindowOfIs` | src/bifrost_market_data/queue_history.py:45-48 | Every moment lies in the window of exactly one grid boundary |
| `QueueHistory.DeltasConserveJobs` | src/bifrost_market_data/queue_history.py:90-98 | Over any set of windows the created, done or failed deltas add up to exactly the jobs of those windows that were caught; a missed window is a gap |
| `QueueHistory.AllConservedIff` | src/bifrost_market_data/queue_history.py:90-98 | The sum is all the jobs of the windows exactly when each was caught |
| `QueueHistory.LateCommitIsInNoSample` | src/bifrost_market_data/scheduler/enqueue.py:117-141 | A batch begun before a boundary and committed after the read is in no sample |
| `QueueHistory.SecondFinishCountsTwice` | src/bifrost_market_data/queue_history.py:54-59 | A row marked finished a second time is counted in two windows |
| `IngestHistory.DaysAreRightIff` | src/bifrost_market_data/api/ingest_dashboard.py:1090-1091 | Every window lies in the UTC day the history gives it exactly when the interval divides a day |
| `IngestHistory.Accumulate` | src/bifrost_market_data/api/ingest_dashboard.py:1114-1127 | The nested counters hold exactly what the rows say of each day, kind and status, and of each kind and status |
| `IngestHistory.BuildIngestHistory` | src/bifrost_market_data/api/ingest_dashboard.py:1066-1167 | Each day listed has its kinds' blocks and their total, and the kind totals cover all rows |
| `IngestHistory.TotalsAgreeIff` | src/bifrost_market_data/api/ingest_dashboard.py:1143-1167 | Totals by kind are never below totals by day, and equal them exactly when no counted row lies outside the days listed |
| `IngestHistory.LaterRowInTotalsOnly` | src/bifrost_market_data/api/ingest_dashboard.py:1143-1167 | A row dated after the last day listed is counted by the kind totals and by no day |
| `IngestHistory.HistoryCountsJobs` | src/bifrost_market_data/api/ingest_dashboard.py:1086-1110 | A day's finished count is exactly the jobs of the kind that finished that UTC day and were caught |
| `IngestHistory.DayCountsAllIff` | src/bifrost_market_data/api/ingest_dashboard.py:1073-1080 | The count is every job of that day exactly when each was caught |
| `IngestHistory.HistoryOfARun` | src/bifrost_market_data/api/ingest_dashboard.py:1066-1167 | From the sampler's runs to the line of the page: done and failed of a day and kind are the ledger's jobs of that day that were caught, and all of them exactly when each had committed by the last sample of its window |
| `IngestHistory.LiveFigures` | src/bifrost_market_data/api/ingest_dashboard.py:1066-1167 | The pending and running figures of a day line are the unfinished jobs created that UTC day, waiting and running |
| `FinancialStatements.CurrentCik` | src/bifrost_market_data/ingest/financials.py:45-61 | The cik of a record with the greatest (period_end, filing_date, cik); none when no record has one |
| `FinancialStatements.KeepIsLatest` | src/bifrost_market_data/ingest/financials.py:64-84 | A period is kept exactly when a usable record reports it, and with the first of its latest filings |
| `FinancialStatements.KeptWasFiledLast` | src/bifrost_market_data/ingest/financials.py:62-84 | What is kept of a period is the first listed of its records with the greatest filing date, among those of the current company or of none |
| `FinancialStatements.StatementRows` | src/bifrost_market_data/ingest/financials.py:64-100 | The rows list the kept records once each in period order, and the records of other companies are counted |
| `FinancialStatements.StatementTables.UpsertRows` | src/bifrost_market_data/ingest/financials_tables.py:97-110 | The upserts in order, or nothing when one raises |
| `FinancialStatements.StatementTables.ReplaceSymbolStatement` | src/bifrost_market_data/ingest/financials_tables.py:52-94 | Delete then upsert in one transaction; an error leaves the table as it was; no rows change nothing |
| `FinancialStatements.StatementTables.HandleFinancials` | src/bifrost_market_data/ingest/financials.py:103-130 | Each statement is as its own answer leaves it, under the company all answers name; the statement that raises and those after it are untouched |
| `FinancialStatements.WrittenAt` | src/bifrost_market_data/ingest/financials_tables.py:64-94 | A listed period holds the kept record and its filing date, or the date on file when the record has none |
| `FinancialStatements.CoveredSeriesIsTheVendors` | src/bifrost_market_data/ingest/financials_tables.py:52-63 | After a whole answer a covered series holds exactly the vendor's periods, one row each from the latest filing, none of another company |
| `FinancialStatements.UncoveredSeriesStands` | src/bifrost_market_data/ingest/financials_tables.py:58-62 | Period types the answer has nothing for, and other symbols, are unchanged |
| `FinancialStatements.NothingIsLost` | src/bifrost_market_data/ingest/financials_tables.py:102-109 | A part of the history deletes nothing, and no answer blanks a filing date |
| `FinancialStatements.SecondRunChangesNothing` | src/bifrost_market_data/ingest/financials_tables.py:64-94 | The same answer again deletes and adds nothing and changes no data and no filing date |
| `FinancialStatements.SecondSweepDeletesNothing` | src/bifrost_market_data/ingest/financials_tables.py:64-87 | The DELETE of a second identical run matches no row |
| `CorporateActions.Rows` | src/bifrost_market_data/ingest/corporate_action.py:74-96 | One row per record with an ex-date, filed under the symbol asked for or the record's own |
| `CorporateActions.UpsertedAt` | src/bifrost_market_data/ingest/corporate_action.py:99-109 | A listed key holds what the answer says of it, stamped with the transaction; others are as before |
| `CorporateActions.ActionTable.ReplaceDividends` | src/bifrost_market_data/ingest/corporate_action.py:112-138 | Upsert and delete in one transaction; any failure leaves the table as it was, and an empty answer changes nothing |
| `CorporateActions.ActionTable.HandleSplits` | src/bifrost_market_data/ingest/corporate_action.py:141-160 | A split is filed under its execution date and the symbol asked for, or its own in a market answer, alone; splits delete nothing, and listed ones hold a record of the answer stamped with the transaction |
| `CorporateActions.ActionTable.HandleDividends` | src/bifrost_market_data/ingest/corporate_action.py:163-183 | One row for each distribution listed, by ex-date, distribution, frequency, currency and amount; the symbol's other dividends go when the answer is complete and not empty, unless stamped later; a failure changes nothing |
| `CorporateActions.ActionTable.HandleDividendsMarket` | src/bifrost_market_data/ingest/corporate_action.py:210-231 | The same for the ex-dates of a window, each record under its own symbol |
| `CorporateActions.ScopeAfterIff` | src/bifrost_market_data/ingest/corporate_action.py:41-50 | After a complete answer a dividend in scope is there exactly when listed or stamped no earlier than the transaction |
| `CorporateActions.OutsideTheScope` | src/bifrost_market_data/ingest/corporate_action.py:119-123 | Outside the scope, and for truncated or empty answers, nothing is deleted and only listed rows change |
| `CorporateActions.CompleteAnswerIsExact` | src/bifrost_market_data/ingest/corporate_action.py:37-50 | In a run of transactions that follow one another in time a complete answer leaves its scope with exactly the distributions listed |
| `CorporateActions.SplitsStand` | src/bifrost_market_data/ingest/corporate_action.py:41-50 | No run of dividend fetches deletes or changes a split |
| `SlowCache.RunKeeps` | src/bifrost_market_data/api/slow_cache.py:91-108 | Under every interleaving at most one refresh a key is in flight, and the flag is set exactly while one is |
| `SlowCache.OnlyStoresChange` | src/bifrost_market_data/api/slow_cache.py:116-124 | An answer changes only when a compute that returned is stored, stamped with that moment |
| `SlowCache.RunGoesOnward` | src/bifrost_market_data/api/slow_cache.py:122-124 | Answers once there stay, and their stamps never decrease |
| `SlowCache.LostFlagSticks` | src/bifrost_market_data/api/slow_cache.py:91-108 | A thread that could not be started leaves the flag set for good |
| `SlowCache.FlagClearsIff` | src/bifrost_market_data/api/slow_cache.py:98-108 | A set flag can be cleared exactly when its thread was started or still may be |
| `SlowCache.FreshWhileRefreshing` | src/bifrost_market_data/api/slow_cache.py:20-21 | A refresh can be in flight while a reader, whatever its ttl, sees a fresh answer and is told nothing is on its way |
| `SlowCache.OverBeforeReturn` | src/bifrost_market_data/api/slow_cache.py:91-108 | The refresh a caller is told of can have stored its answer and cleared the flag before the caller is told |
| `SlowCache.BackgroundCache.StartRefresh` | src/bifrost_market_data/api/slow_cache.py:91-108 | Sees or sets the flag, in the one locked section, and says a refresh is in flight as of then unless the thread would not start; what runs before the thread starts and before the call returns is left open |
| `SlowCache.BackgroundCache.RunThread` | src/bifrost_market_data/api/slow_cache.py:98-106 | The flag is cleared whether the compute returns or raises |
| `SlowCache.BackgroundCache.StoreOrKeep` | src/bifrost_market_data/api/slow_cache.py:98-106 | A failed compute leaves every answer as it was |
| `SlowCache.BackgroundCache.ComputeNow` | src/bifrost_market_data/api/slow_cache.py:80-87 | Stores and returns the computed answer; a compute that raises stores nothing |
| `SlowCache.BackgroundCache.Read` | src/bifrost_market_data/api/slow_cache.py:51-78 | Never empty once the key has an answer; otherwise the entry seen with its age; told that an answer is coming exactly when the entry seen is missing or older than ttl, and then the flag was set in the state in which it was looked at or set |
| `FastReads.LooseScan` | src/bifrost_market_data/api/coverage_dimensions.py:134-147 | The recursive walk visits the least value of each bucket, each bucket once, up to its limit, and terminates |
| `FastReads.WalkListsBuckets` | src/bifrost_market_data/api/coverage_dimensions.py:134-147 | The buckets visited are all there are, in increasing order |
| `FastReads.SkipScan` | src/bifrost_market_data/api/coverage_dimensions.py:134-147 | The skip scan gives exactly the pairs of GROUP BY, each symbol once in increasing order |
| `FastReads.GroupScan` | src/bifrost_market_data/api/coverage_dimensions.py:145-147 | One pass over the rows gives each symbol its oldest day |
| `FastReads.Accrual` | src/bifrost_market_data/api/coverage_dimensions.py:217-228 | Counts, first, last and recent days are those of the days read |
| `FastReads.DaysReadAre` | src/bifrost_market_data/api/coverage_dimensions.py:217-228 | The days read are distinct and ascending and each holds a stamp; they are all such days, or the first as many as the limit |
| `FastReads.AccrualIsRightIff` | src/bifrost_market_data/api/coverage_dimensions.py:217-228 | Count and newest day are right exactly up to the limit; the recent count also when the newest day is not recent |
| `FastReads.LimitHidesTheNewest` | src/bifrost_market_data/api/coverage_dimensions.py:217-228 | With two days held and a limit of one the oldest day is reported as the newest |
| `FastReads.AbsentIs` | src/bifrost_market_data/continuity.py:276-323 | A day is listed as often as it was asked about, exactly when nothing is held for it |
| `FastReads.MissingByProbe` | src/bifrost_market_data/continuity.py:289-300 | A probe a day lists exactly the absent days in order |
| `FastReads.MissingByScan` | src/bifrost_market_data/continuity.py:281-288 | The distinct-days scan gives the same list |
| `OptionTicker.FindSplit` | src/bifrost_market_data/ingest/_upsert.py:19-32 | The non-greedy match finds a split whenever there is one |
| `OptionTicker.OneSplit` | src/bifrost_market_data/ingest/_upsert.py:19-32 | A key splits in one way only, its tail being the last 15 characters |
| `OptionTicker.ParsesIff` | src/bifrost_market_data/ingest/_upsert.py:19-32 | A text is a key exactly when it has the shape, in any case of letters, and its date exists; its year, month, day, root and right are those spelled, years below 70 being this century's |
| `OptionTicker.ParseOptionTicker` | src/bifrost_market_data/ingest/_upsert.py:137-157 | Search and conversion together are the fixed-tail reading of the upper-cased key |
| `OptionTicker.ParseInvertsPrintIff` | src/bifrost_market_data/ingest/_upsert.py:137-157 | Parsing inverts printing exactly for the expiries of 1970 to 2069 |
| `OptionTicker.PrintInvertsParse` | src/bifrost_market_data/ingest/_upsert.py:137-157 | Printing inverts parsing on every key that parses |
| `OptionTicker.ParseIsInjective` | src/bifrost_market_data/ingest/_upsert.py:137-157 | Two keys that parse to one contract are one key |
| `OptionTicker.RootsAgree` | src/bifrost_market_data/symbol_rename.py:67-73 | option_root gives the parsed root on every key the parser accepts |
| `OptionTicker.RootWithoutKey` | src/bifrost_market_data/symbol_rename.py:67-73 | option_root answers for every long enough text with the prefix, keys or not |
| `SymbolRename.CollectRoots` | src/bifrost_market_data/symbol_rename.py:147-153 | The loop collects the first distinct foreign roots up to its bound |
| `SymbolRename.ResolveStorage` | src/bifrost_market_data/symbol_rename.py:134-157 | The loop returns the first rename among the sorted roots, or the base |
| `SymbolRename.RenameIff` | src/bifrost_market_data/symbol_rename.py:92-131 | A rename is to a listed live symbol, from one the catalogue does not list or knows no state of, or from a dead one with the same cik and figi |
| `SymbolRename.LabelIsLive` | src/bifrost_market_data/symbol_rename.py:92-131 | The label moves only from a symbol not live to a live one some contract is rooted at |
| `SymbolRename.RootsAreFirst` | src/bifrost_market_data/symbol_rename.py:147-153 | The roots taken are the first distinct foreign roots, as many as the bound allows |
| `SymbolRename.LabelMovesIff` | src/bifrost_market_data/symbol_rename.py:134-157 | The label moves exactly when a rename is among the first foreign roots within the bound, and to the first in order of those |
| `SymbolRename.RenameIsMissedIff` | src/bifrost_market_data/symbol_rename.py:134-157 | A rename the chain holds is missed exactly when its first one stands behind as many foreign roots as the bound allows, or more |
| `SymbolRename.ShortChainsAreResolved` | src/bifrost_market_data/symbol_rename.py:134-157 | Up to the bound in foreign roots a chain moves exactly when some contract is rooted at a rename |
| `SymbolRename.FifthRootIsMissed` | src/bifrost_market_data/symbol_rename.py:134-157 | With four roots allowed a successor that comes fifth is not found |
| `SymbolRename.BoundHidesTheRest` | src/bifrost_market_data/symbol_rename.py:147-153 | At the bound nothing listed later counts |
| `SymbolRename.ResolvingTwice` | src/bifrost_market_data/symbol_rename.py:134-157 | The resolved label resolves to itself |

## Left out

- RetentionArchive: Parquet encoding, fsync, checksums and the content of manifest and ledger; a file is its rows, the count read back is its length, and a manifest that cannot be written is an error after the commit.
- ArchiveProtocol: ambiguous commits, where the server commits and the client sees an error.
- Verdicts: the thresholds that judge one axis of one dataset, `verdict_map` and `unread_datasets`.
- CoverageHistory: concurrent `record` calls, collisions of the digest, and the list `history` prints.
- JobQueue: the order in which `claim_job` picks rows, stale-row detection by time.
- NightlyHeal: the window moving on from night to night, and new sessions landing in it.
- Doctor: all findings but failed jobs and missing or narrow sessions, the breadth-read failure, severities and wording.
- HoleDetector: float ratios, which are exact fractions here, and the reads that count rows per day.
- TradingCalendar: failed holiday reads; the weekday fallback of `is_trading_day` is the probe of `Session.Resolve`.
- Session: `deadline`, `is_late` and `session_close`, which are date arithmetic, and full time-zone rules; the offset is 4 or 5 hours.
- QueueHistory: percentiles, the age of the oldest pending job, `backfill_from_jobs`, whose rows carry the opening boundary, and the 90-day trim.
- IngestHistory: the order of the lists by total, rows without a kind, and the payload's text fields.
- FinancialStatements: the switch that turns the writes off, dates that do not parse, `fiscal_year` and `fiscal_quarter`, which follow the record, and symbol voids.
- CorporateActions: float and text conversions of the record's fields; texts and amounts are compared only.
- RetryDrain: the count of failures the samples recorded, which words the finding and offers no row.
- SlowCache: `clear`, which only tests use, and the milliseconds a compute took.
- FastReads: failed reads, which give no answer, and `_accrual_rate`, which is one division.
- OptionTicker: blanks around the text, digits and letters beyond ASCII, and the float a strike is divided into.
- SymbolRename: a catalogue that changes between the lookups of one call.
- HTTP routing, vendor clients, query timeouts, schema migrations and the planner's choices are not part of this model.
