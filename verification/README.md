# A verified model of Fathom's background machinery

Fathom keeps everything it knows in a lake of append-only rows and acts on it from background
loops: a watcher turns helper replies into intents, a scheduler fires routines, a relief valve turns
accumulated pressure into sittings, a supervisor fires the harness while messages are unaddressed.
This project models the loops and stores whose guarantees span many steps, and proves those
guarantees for every input and every run.

The lake is a sequence of rows with integer timestamps. Clocks are integers that do not run
backwards. A query is a function of the lake's rows; a write is an append that may fail. Code that
updates state in place is a class or a method with loops, proved equal to a function of the old
state; the lemmas are about those functions and about runs of them.

| component | files | main results |
|---|---|---|
| helper-reply watcher | watcher, watcher_runs, watcher_tick, watcher_spawn | no (correlation, row) pair is minted twice over any run of appends, ticks, failed writes, partly failed primes and restarts; exactly which rows of the lake a tick mints; exactly when a torn tick loses a closure |
| drift history | drift, drift_runs | every sample of the last 365 days stays covered at its current bucket width; at most 2,907 rows survive |
| pressure relief | relief, relief_runs, relief_burst | sit flavours alternate, cooldowns hold, the cascade loop is one sweep over the tier table, exactly what each request fires and when a watcher tick fires more than one tier, pressure without new volume allows only logarithmically many fires that consume |
| spec frontmatter | text, frontmatter, frontmatter_roundtrip, frontmatter_any | what parsing any rendered spec returns, and exactly when it returns the same spec |
| routine specs | routines, routines_runs, routines_meaning | the spec log refines a map over every run, whatever ids and values it is sent; what each field of a stored routine reads as; exactly which ids survive |
| cron and scheduler | cron, cron_meaning, scheduler, scheduler_pass, scheduler_runs, scheduler_served, routines_cron | what an expression names; the search returns exactly the least scheduled minute; which routines a pass fires; no minute is served twice across restarts; a dense schedule is served in full; exactly when a routine falls silent |
| provenance centroid | walks, centroid, centroid_mean | the leaves averaged are exactly those a bounded walk reaches, each once, on any graph |
| recall expansion | ancestry, search, search_asks, search_total | ancestors nearest first, each once, and the nearest 60 asked for; listings stay pairwise disjoint; exactly when the total is the number of listed ids |
| supervisor and gate | thread, llm_gate, supervisor | exactly when a turn fires, told by its history; at most 19 fires between resets, and 19 happen; probes keep their distance |
| ACP client | acp_client, acp_text, acp_settle | the messages handled are those of the text read, however it is cut and interleaved; every issued id is pending or settled exactly once, and settled by what names it |
| puddle | puddle | the reaper is unobservable; a subscriber's queue is the newest part of its backlog |

`sequences.dfy` holds filters, stable sorting and repetition-free sequences; `text.dfy` the Python
string operations.

## Where the code differs from what it says of itself

* The watcher says that a closure wakes the loop on the next tick. A closure that lands during a tick is
  minted by the next complete tick if and only if the tick in progress mints no reply of the same
  correlation that is as new as the closure; otherwise no run ever mints it
  (`WatcherTick.LateClosureMintedIff`, `WatcherTick.OvertakenIsLost`, with a concrete run in
  `WatcherTick.TornTickCounterexample`).
* `pressure_watcher` says that each tick fires at most one tier. A tick fires more than one exactly when
  its gate is open and what the first fire leaves lets a deeper tier fire
  (`ReliefBurst.TickFiresManyIff`). Nothing in the repository calls `feed_pressure.mark_wake`, so,
  from a fresh state file on, the gate never opens for a contrast wake, only for volume at the threshold
  (`ReliefBurst.ArmedByPressureIff`); and then, at a positive threshold, a tick that finds every cooldown
  lapsed, no alert card recent and its markers writable fires two tiers, three from 1.75 times the
  threshold on, and never just one (`ReliefBurst.NeverJustOne`). Where no marker can be written it can fire four
  (`ReliefBurst.LapsedBurst`). The second scan of `pick_tier`, described as a fallback, never finds
  anything in a reachable state (`ReliefRuns.SecondScanIsDead`).
* The scheduler's hydration says that without receipts a daily 10:10 routine would fire again on a
  10:30 restart. It would not: a minute is served again only by a process that booted within that
  very minute and reads no later receipt (`SchedulerRuns.ServedTwiceIff`).
* The how-to for routines offers the monthly schedule `0 10 1 * *`. The search looks eight days ahead of
  the pivot, and within a process the pivot moves only when the routine fires. After a fire made less
  than twenty days late such a routine is silent until a restart
  (`SchedulerServed.MonthlySilentAfterFire`; for any routine, `SchedulerServed.FiredThenSilentIff`), and
  it can be created only within the eight days before a first (`RoutinesCron.MonthlyAcceptedIff`).
* Routine ids are written as frontmatter text and read back with types. Deleting the routine `007`
  puts the tombstone on `7` and leaves `007` live (`RoutinesRuns.SevenSurvives`, `RoutinesRuns.DeleteHitsIff`).
  An id with edge whitespace is checked stripped and stored padded (`RoutinesRuns.PaddedIdStaysFree`).
* The scaffold comment says that section fields take precedence over the raw prompt. On update they are
  dropped unless a raw prompt comes along (`RoutinesRuns.SectionsKeptIff`).
* `tail` says that it returns at most `limit` rows. With a limit of zero it returns all of them
  (`Thread.TailLimitIff`).
* The supervisor says that after five fires without progress it idles until the next external trigger.
  It idles for one longer pause and resets its counter: while the same messages stay pending, every six
  polls hold five fires, without end (`Supervisor.StuckQueueFiresOn`).
* The total of a recall is the number of listed ids for every plan without a step named `_provenance` or
  `_ascendance` (`SearchTotal.PlainPlanIsExact`). A plan with such a step is admitted, and an expansion
  that replaces its list leaves ids counted and listed nowhere (`SearchTotal.TotalExactIff`,
  `SearchTotal.AscendanceStepMiscounts`).

## Model

| member | source | states |
|---|---|---|
| `Watcher.ClaudeCodeWatcher.CorrelationState` | api/loop/claude_code_watcher.py:202-250 | the scan over closures and spawns computes `PlanFor` of the snapshot |
| `Watcher.NewestClosureWins` | api/loop/claude_code_watcher.py:208-222 | the closure kept for a correlation is the newest of its complete and abandoned rows, and there is one exactly when such a row exists |
| `Watcher.PlanSplitsByClosure` | api/loop/claude_code_watcher.py:224-245 | a usably spawned correlation is active exactly when no closure has landed, closing exactly when one has |
| `Watcher.ClaudeCodeWatcher.Prime` | api/loop/claude_code_watcher.py:290-333 | one prime attempt, either query of which may fail, leaves the floor `PrimeFloor` and reports success exactly when both answered |
| `Watcher.ClaudeCodeWatcher.RaiseFromClosures` | api/loop/claude_code_watcher.py:301-309 | the first pass raises the floor to each correlation's newest closure |
| `Watcher.ClaudeCodeWatcher.ClampFromSpawns` | api/loop/claude_code_watcher.py:319-327 | the second pass clamps spawned correlations without a floor to now |
| `Watcher.ClaudeCodeWatcher.Tick` | api/loop/claude_code_watcher.py:390-502 | a tick with failing queries and writes turns the ledger into `TickLedger` of it |
| `Watcher.ClaudeCodeWatcher.MintActive` | api/loop/claude_code_watcher.py:398-454 | one open correlation's reply pass: replies strictly above the scan start, oldest first, a failed write leaving the floor alone |
| `Watcher.ClaudeCodeWatcher.MintClosing` | api/loop/claude_code_watcher.py:462-502 | one closed correlation's pass: at most one closure intent, blank closures only move the floor |
| `WatcherRuns.AtMostOnce` | api/loop/claude_code_watcher.py:253-502 | over every run no correlation and source row are minted together twice, and the closures minted for a correlation get strictly newer |
| `WatcherRuns.FloorNeverFalls` | api/loop/claude_code_watcher.py:301-327 | within one incarnation no step lowers a floor |
| `WatcherRuns.PassedIsFinal` | api/loop/claude_code_watcher.py:420-502 | a row at or below the floor, or a reply of a closed correlation, is minted by no later run, restarts included |
| `WatcherRuns.PrimedClosuresNeverMinted` | api/loop/claude_code_watcher.py:253-286 | no closure in the lake when the prime succeeds is ever minted afterwards |
| `WatcherRuns.RetiredMintsOnlyClosures` | api/loop/claude_code_watcher.py:224-245 | once a correlation is closed and no tick that saw it open is still scanning it, each later intent for it is a closure intent |
| `WatcherRuns.MintRepliesEffect` | api/loop/claude_code_watcher.py:416-454 | the replies minted in one pass are distinct, above the start, at or below the new floor, and all that could be minted |
| `WatcherTick.TickMintsExactlyWhatIsDue` | api/loop/claude_code_watcher.py:390-502 | a snapshot tick mints an intent if and only if it is a due reply of an open correlation or the due newest closure of a closed one |
| `WatcherTick.TickIsItsSteps` | api/loop/claude_code_watcher.py:390-502 | the tick method ends where the protocol's single steps end when nothing comes between them |
| `WatcherTick.LateClosureMintedIff` | api/loop/claude_code_watcher.py:390-502 | a non-blank newest closure that lands during a tick, above the floor, is minted by the next complete, failure-free tick if and only if no reply due in the tick in progress is as new as it |
| `WatcherTick.OvertakenIsLost` | api/loop/claude_code_watcher.py:464-470 | and otherwise no continuation ever mints it |
| `WatcherTick.FloorPassesIff` | api/loop/claude_code_watcher.py:416-454 | a reply pass lifts the floor to a row above it exactly when it mints a reply no older than that row |
| `WatcherTick.TornTickLosesClosure` | api/loop/claude_code_watcher.py:393-410 | one torn reply step that mints a reply no older than an unseen closure loses that closure for every continuation |
| `WatcherTick.TornTickCounterexample` | api/loop/claude_code_watcher.py:393-410 | a concrete run, every continuation of which never mints the closure |
| `WatcherTick.RemintedIff` | api/loop/claude_code_watcher.py:290-333 | whatever the clock of a new process's prime reads, the first complete tick mints a reply of an open correlation, minted before or not, exactly when that clock reads before the reply's timestamp |
| `WatcherSpawn.ReplyMintedIff` | api/loop/claude_code_watcher.py:398-454 | a tick mints a row for an open correlation exactly when it is a non-blank reply of the session its last spawn row names, newer than the floor or, before there is one, than that spawn row, and neither query nor write fails |
| `WatcherSpawn.FirstScanStartsAtSpawn` | api/loop/claude_code_watcher.py:400-402 | in every run the first failure-free tick to scan a correlation without a floor mints a reply exactly when it is newer than every spawn row of the correlation |
| `WatcherSpawn.ClosureMintedIff` | api/loop/claude_code_watcher.py:462-502 | a tick mints the newest closure of a spawned correlation, and no other, exactly when it has an id and content, lies above the floor, if there is one, and its write succeeds |
| `WatcherSpawn.ClosedFloorIs` | api/loop/claude_code_watcher.py:464-502 | a tick raises a closed correlation's floor to its newest closure, a blank one too, unless that has no id or its write fails |
| `WatcherSpawn.PrimedFloorIs` | api/loop/claude_code_watcher.py:290-333 | a prime raises a floor to the newest closure and clamps a spawned correlation that has neither floor nor closure to the clock; no other correlation gets a floor, and a failed query adds nothing |
| `Drift.DriftHistory.CompactHistory` | api/drift.py:72-106 | the two nested loops compute `Compact` |
| `Drift.DriftHistory.Sample` | api/drift.py:177-196 | append, compact, cap |
| `Drift.BucketsNest` | api/drift.py:42-47 | two times in one bucket of a tier share a bucket of every coarser tier |
| `Drift.TierTable` | api/drift.py:90-99 | the tier of a sample by its age |
| `DriftRuns.EverySampleIsCovered` | api/drift.py:177-196 | after every run of samples, each sample of the last 365 days has a surviving row no older than it in the same bucket at the width of its current tier |
| `DriftRuns.CompactRepresents` | api/drift.py:84-106 | a sample young enough to keep is represented in its own slot by a row no older |
| `DriftRuns.CompactSubset` | api/drift.py:83-106 | compaction invents no row |
| `DriftRuns.CompactSorted` | api/drift.py:105-106 | surviving times strictly increase |
| `DriftRuns.CompactIsSmall` | api/drift.py:32-47 | at most 1441 + 577 + 553 + 336 rows survive when no sample is from the future |
| `DriftRuns.CapNeverCuts` | api/drift.py:192-194 | the 50,000 cap never cuts |
| `DriftRuns.CompactIsIdempotent` | api/drift.py:72-106 | compacting again at the same instant changes nothing |
| `DriftRuns.NewestSurvives` | api/drift.py:177-196 | the sample just taken is the last row's time |
| `Relief.ReliefValve.FireRelief` | api/loop/relief.py:391-505 | which tier fires, the state and the synthesis anchor after it, for automatic, pulse and forced requests, alert suppression and a failing marker included |
| `Relief.ReliefValve.StampCooldown` | api/loop/relief.py:346-352 | the stamp, and the rotation index for sit flavours |
| `Relief.ReliefValve.MarkSynthesis` | api/feed_pressure.py:232-268 | a fractional bite leaves its complement of the total as the floor, a full one leaves nothing; the synthesis anchor moves |
| `Relief.ReliefValve.ShouldSynthesize` | api/feed_pressure.py:186-197 | the gate's answer: pressure, first run, contrast wake or below threshold, in that order |
| `Relief.ReliefValve.MarkWake` | api/feed_pressure.py:225-229 | the wake anchor moves |
| `Relief.ReliefValve.Tick` | api/loop/pressure.py:53-84 | a tick fires the cascade when the gate is open for pressure or a contrast wake and relief is not disabled, and nothing otherwise |
| `Relief.ReliefValve.Cascade` | api/loop/pressure.py:77-82 | the burst loop terminates and fires the tiers of `CascadeTiers` |
| `ReliefRuns.RotationHoldsOverRuns` | api/loop/relief.py:271-281 | over every run from an empty cooldown file, automatically picked sits differ from the sit fire before them, and fires of one tier are at least its cooldown apart |
| `ReliefRuns.SecondScanIsDead` | api/loop/relief.py:331-343 | when the flavour other than the last has no later stamp, the second scan finds nothing the first one missed |
| `ReliefRuns.FirstScanTable` | api/loop/relief.py:308-330 | the first scan's choice, tier by tier |
| `ReliefRuns.RequestFires` | api/loop/relief.py:287-343 | in every reachable state a pulse fires the first of alert, bridging and the sit in turn that is not resting, whatever the pressure; an automatic fire the first of them that the pressure suffices for as well; a forced one its own tier unless it rests; with the stamps, pressure and suppression that follow |
| `ReliefRuns.PulseFiresIff` | api/loop/relief.py:303-315 | a pulse fires nothing exactly when alert, bridging and the sit in turn all rest, or an alert is suppressed |
| `ReliefBurst.CascadeIsSweep` | api/loop/pressure.py:67-84 | the burst loop fires exactly what one pass over the tier table fires, each tier at the pressure the ones before it left, markers that fail included |
| `ReliefBurst.CascadeIsShort` | api/loop/pressure.py:67-84 | a burst fires strictly deeper tiers, at most three, or four when the next sit cannot write its marker; a sit that writes it is last; the pressure left is the start pressure times the product of what the marked fires do not consume |
| `ReliefBurst.BurstGoesOnIff` | api/loop/pressure.py:67-84 | a burst fires two or more tiers if and only if the ratio its first fire leaves, unchanged when its marker fails, makes a deeper tier eligible |
| `ReliefBurst.TickFiresManyIff` | api/loop/pressure.py:56-84 | a tick does so if and only if moreover the gate is open and relief is not disabled |
| `ReliefBurst.TicksAreSweeps` | api/loop/pressure.py:53-84 | over every run of arrivals, requests, ticks and wakes, a tick fires that one pass or nothing, within the same bounds |
| `ReliefBurst.ArmedIff` | api/loop/pressure.py:56-66 | the watcher goes on to fire exactly when it is not disabled and the volume reaches the threshold, or pressure was consumed before and the last marked wake is long enough ago |
| `ReliefBurst.ArmedByPressureIff` | api/feed_pressure.py:186-197 | over every run without a marked wake the gate opens exactly when the volume reaches the threshold |
| `ReliefBurst.NeverJustOne` | api/loop/pressure.py:56-84 | over such a run, a tick that finds all cooldowns lapsed and no alert card recent and writes its markers fires no tier below a positive threshold, two from it on and three from 1.75 times it |
| `ReliefBurst.LapsedBurst` | api/loop/pressure.py:67-84 | with all cooldowns lapsed and no alert card recent, at every threshold and pressure: none, one, two or three tiers as the ratio passes 0.3, 0.625 and 1.75 when markers are written; none, one, two or four as it passes 0.3, 0.5 and 0.7 when none is |
| `ReliefBurst.LeaveIsResidue` | api/feed_pressure.py:259-268 | consuming tier after tier leaves the product |
| `ReliefRuns.Quiescence` | api/loop/relief.py:311-315 | without new volume, k automatic fires that consume leave at most (4/5)^k of the pressure and need a start pressure that grows as (5/4)^k, whatever fires fail to consume in between |
| `Frontmatter.Parse` | api/routines.py:81-103 | the parsing loop computes `ParseFrontmatter` |
| `Frontmatter.Render` | api/routines.py:106-128 | the rendering loop computes `RenderFrontmatter` |
| `FrontmatterRoundTrip.ValueSurvivesIff` | api/routines.py:94-127 | a value reads back as itself exactly when it is a boolean, a non-negative integer or a plain string |
| `FrontmatterAny.RoundTripAny` | api/routines.py:81-128 | for every spec: without a fence inside a value the rendered text parses to each value's lines in turn and the body; with one, the header ends there and the rest becomes body |
| `FrontmatterRoundTrip.RoundTrip` | api/routines.py:81-128 | when no known value holds a line break, parsing the rendered text returns each known value reread and the body without leading newlines |
| `FrontmatterRoundTrip.RoundTripExactIff` | api/routines.py:81-128 | for every spec the same meta and body come back exactly when every known value is representable and free of line breaks and the body starts with no newline |
| `FrontmatterRoundTrip.RenderIsFixpointIff` | api/routines.py:81-128 | when no known value holds a line break, rendering what was parsed reproduces the text exactly when each known value looks the same written, read and written again |
| `FrontmatterRoundTrip.RestfulValues` | api/routines.py:92-127 | representable values, all integers and the two boolean words do |
| `FrontmatterRoundTrip.FenceFound` | api/routines.py:85-87 | the closing fence found is the one rendered, whatever the single-line values and the body contain |
| `FrontmatterRoundTrip.RenderedText` | api/routines.py:106-128 | the text of a rendered spec: a fence, a line for each known field with a value in the fixed order, quoted when it starts with a star or holds a colon, a fence, a blank line and the body |
| `Routines.RoutineStore.LatestSpecs` | api/routine_scheduler.py:120-129 | the latest-wins loop finds, for each routine id, the row the log stands for, in whatever order the lake answers |
| `Routines.RoutineStore.List` | api/routines.py:413-448 | the listed routines are the live ones of the log's view |
| `Routines.RoutineStore.Scheduled` | api/routine_scheduler.py:131-140 | the scheduler considers exactly the enabled, scheduled ones among the same live set |
| `Routines.RoutineStore.GetLatestSpec` | api/routines.py:503-514 | the single lookup agrees with the list's latest-wins loop |
| `Routines.RoutineStore.MergeMeta` | api/routines.py:526-549 | request fields over existing ones, flags coerced, an interval that is no integer dropped |
| `Routines.RoutineStore.Admit` | api/routines.py:568-584 | the checks of create and their order |
| `Routines.RoutineStore.Create` | api/routines.py:567-589 | fails exactly on missing fields, live ids and bad schedules; otherwise appends one row |
| `Routines.RoutineStore.Update` | api/routines.py:592-605 | fails exactly on ids that are not live and on bad schedules; otherwise appends one row |
| `Routines.RoutineStore.SoftDelete` | api/routines.py:608-616 | fails exactly on ids that are not live; otherwise appends one row |
| `Routines.ViewIsNewest` | api/routines.py:503-514 | the newest row of an id is what the log stands for |
| `Routines.SlugShape` | api/routines.py:552-564 | a slug is short, lower-case alphanumeric with inner hyphens |
| `RoutinesRuns.RunRefines` | api/routines.py:503-616 | over every run of create, update and delete, whatever ids and values they carry, the log answers each request as a map does that each write rebinds at the id its row carries, and stands for that map |
| `RoutinesRuns.CreateWrites` | api/routines.py:567-589 | a create without line breaks in its fields binds the closed form of its spec to the id as sent, padding included |
| `RoutinesRuns.UpdateWrites` | api/routines.py:592-605 | such an update binds it to the id it names |
| `RoutinesRuns.DeleteWrites` | api/routines.py:608-616 | a delete binds the tombstone to the id the stored spec reads back, or else the one it names |
| `RoutinesRuns.PlainRunRefines` | api/routines.py:503-616 | over every run of one-line requests with storable ids that map is the plain one, where each id names its own spec |
| `RoutinesRuns.CreateRefines` | api/routines.py:585-589 | a successful create binds its id to the spec asked for and touches no other routine |
| `RoutinesRuns.UpdateRefines` | api/routines.py:598-605 | a successful update rebinds its id only, keeping the body when no prompt is sent |
| `RoutinesRuns.UpdateKeepsTheRest` | api/routines.py:526-530 | fields an update does not name keep their values |
| `RoutinesMeaning.UpdateReads` | api/routines.py:526-546 | after an update each known field reads as what the request sent for it, or else as its earlier value, with flags as booleans and the interval as an integer or dropped; the id is the one named |
| `RoutinesMeaning.UpdatePlaces` | api/routines.py:598-605 | a workspace that is sent wins over the earlier one, a blank one does not; a prompt that is sent replaces the body |
| `RoutinesMeaning.UpdateAnswers` | api/routines.py:592-597 | not found exactly when the routine is not live, refused exactly for a schedule that is sent and not valid |
| `RoutinesMeaning.CreateReads` | api/routines.py:567-589 | after a create each known field reads as what the request sent for it, or else as its default; a blank id is the slug of the name |
| `RoutinesMeaning.CreatePlaces` | api/routines.py:547-549 | the workspace and the body of a create without sections |
| `RoutinesMeaning.CreateAnswers` | api/routines.py:567-584 | which of the create checks answers, for every name, id, store and verdict on the schedule |
| `RoutinesMeaning.IntervalReads` | api/routines.py:539-543 | an interval reads as the integer it is or spells, signed or not |
| `RoutinesMeaning.NoInterval` | api/routines.py:539-543 | a string that spells none is dropped |
| `RoutinesMeaning.SectionsStand` | api/routines.py:61-75 | where each section stands in the stored body: stripped, under its own heading, a blank line after the one before |
| `RoutinesMeaning.SlugSpells` | api/routines.py:552-564 | a slug spells the lower-cased letters and digits of the name in order, all of them unless it is 47 or 48 long, with never two hyphens in a row |
| `RoutinesMeaning.DeleteReads` | api/routines.py:608-616 | a tombstone is marked deleted and has no body; every other known field and the workspace read as they did |
| `RoutinesMeaning.OnScheduleIff` | api/routine_scheduler.py:131-140 | a routine is on schedule unless `enabled` or `schedule` reads as something falsy or there is no schedule |
| `RoutinesRuns.SectionsKeptIff` | api/routines.py:598-601 | prompt sections reach the stored body on update exactly when a raw prompt comes along or the body already read so |
| `RoutinesRuns.DeleteRefines` | api/routines.py:612-616 | a successful delete tombstones its id and touches no other routine |
| `RoutinesRuns.DeletedIdIsFree` | api/routines.py:579-581 | after a delete the id can be created again, and updated or deleted no more |
| `RoutinesRuns.DeleteHitsIff` | api/routines.py:608-616 | deleting a live routine, whatever happened since it was written, binds the tombstone to the id that reads back, and removes the routine exactly when its id is plain, a numeral without superfluous zeros, or `True` or `False` |
| `RoutinesRuns.SevenIsHit` | api/routines.py:92-103 | the id `007` is not addressable and reads back as `7` |
| `RoutinesRuns.DeleteMisses` | api/routines.py:567-616 | a create and then a delete under an id that is not addressable answer success, leave the routine live and tombstone the id that reads back |
| `RoutinesRuns.SevenSurvives` | api/routines.py:567-616 | creating and deleting `007` leaves it live and `7` tombstoned |
| `RoutinesRuns.AddressableIff` | api/routines.py:92-103 | an id is found under itself after a write exactly in those cases |
| `RoutinesRuns.CreateTagIff` | api/routines.py:567-589 | a created spec is tagged with the id that was checked exactly when that id had no edge whitespace |
| `RoutinesRuns.PaddedIdStaysFree` | api/routines.py:567-589 | with a padded id the very same create is answered the same way again |
| `RoutinesRuns.WriteReadsBack` | api/routines.py:503-523 | what a written row reads back as, tags and workspace included |
| `Cron.Matches` | api/routines.py:146-158 | a field is malformed, divides by zero, or allows a value exactly as its parsed meaning says |
| `Cron.MatchesMinute` | api/routines.py:165-171 | the five fields ANDed with short circuit, weekday 0 being Sunday |
| `Cron.ParseCronNext` | api/routines.py:134-175 | the moving candidate finds `NextFire` |
| `Cron.NextFireIsLeast` | api/routines.py:160-172 | the search returns a minute if and only if it is the least scheduled one after the pivot's within 11,520 minutes |
| `Cron.NextFireFoundIff` | api/routines.py:162-175 | the search returns something exactly when the horizon holds a scheduled minute |
| `Cron.BadFieldNeverDue` | api/routines.py:146-158 | a field that is malformed or divides by zero once rules the schedule out for every minute |
| `CronMeaning.ScheduleMeans` | api/routines.py:134-171 | an expression written from stars, steps, numbers, ranges and lists names exactly the minutes at which all five fields fit, ranges closed, weekdays counted from Sunday |
| `CronMeaning.FiveOrNever` | api/routines.py:141-143 | an expression of any other number of words than five names no minute |
| `CronMeaning.RaisesIff` | api/routines.py:146-173 | for every expression, the search divides by zero exactly when, within eight days and before any scheduled or malformed minute, every field before a zero step allows its value |
| `Scheduler.RoutineScheduler.PivotFor` | api/routine_scheduler.py:49-58 | the later of the last fire and boot less the grace |
| `Scheduler.RoutineScheduler.Hydrate` | api/routine_scheduler.py:76-95 | each routine's last fire becomes the later of what was known and the answered receipts, truncated to whole seconds |
| `Scheduler.RoutineScheduler.Scan` | api/routine_scheduler.py:88-92 | the maximum per routine over one query |
| `Scheduler.RoutineScheduler.CheckOnce` | api/routine_scheduler.py:109-174 | one pass: which routines fire, which failed fires leave the table alone, which routines it then asks to delete, and that an arithmetic error ends it |
| `Scheduler.PassRetiresIff` | api/routine_scheduler.py:162-174 | a pass asks to delete exactly the single-fire routines that fired in it |
| `SchedulerPass.PassFiresIff` | api/routine_scheduler.py:109-155 | a pass over distinct routines fires one exactly when none before it stops the pass, the first scheduled minute of the eight days after its last fire, or after a minute before boot, has begun, and the fire succeeds |
| `SchedulerPass.PassKeepsOwed` | api/routine_scheduler.py:147-155 | a routine's last fire becomes now exactly if it fired; a fire that fails leaves it as it was |
| `SchedulerPass.RestartRecalls` | api/routine_scheduler.py:58-92 | after a restart a routine's last fire is the latest of its receipts that the queries return, to the second; a query that fails hides its own receipts only |
| `SchedulerRuns.Reboot` | api/routine_scheduler.py:61-95 | a new process that hydrates is in the state a restart step leads to |
| `SchedulerRuns.SlotsServedOnce` | api/routine_scheduler.py:49-174 | over every run of polls, manual fires and restarts with receipts written and read, the minutes served for one routine strictly increase |
| `SchedulerRuns.ServedAgainIff` | api/routine_scheduler.py:49-71 | without a receipt a served minute is served again exactly by a process that booted within it |
| `SchedulerRuns.ServedTwiceIff` | api/routine_scheduler.py:49-174 | over every run, whatever receipts are lost or unreadable, a served minute is served again exactly by a process that booted within it and knows of no fire in it or later |
| `SchedulerRuns.BootGrace` | api/routine_scheduler.py:52-58 | without a known fire no minute before the boot minute is served, and the boot minute is exactly when it is scheduled |
| `SchedulerRuns.TruncationKeepsMinute` | api/routines.py:384-390 | truncation to whole seconds keeps the minute |
| `SchedulerRuns.FiresIffOwed` | api/routine_scheduler.py:142-145 | a poll fires a routine exactly when a scheduled minute within the pivot's horizon has begun |
| `SchedulerRuns.LeftBehindIff` | api/routine_scheduler.py:142-155 | after a successful poll a begun scheduled minute is still unserved exactly when one was before and the old pivot's horizon held none |
| `SchedulerServed.SparseRoutineStops` | api/routine_scheduler.py:142-155 | a routine with no scheduled minute in its pivot's horizon never fires again before a restart |
| `SchedulerServed.SilencedIff` | api/routine_scheduler.py:142-155 | a routine is silent over every continuation without a restart exactly when its pivot's horizon holds no scheduled minute |
| `SchedulerServed.FiredThenSilentIff` | api/routine_scheduler.py:142-155 | after a poll that fired it, a routine is silent for good exactly when no scheduled minute lies within eight days of that poll |
| `SchedulerServed.EveryMinuteIsServed` | api/routine_scheduler.py:109-155 | when every eight days hold a scheduled minute and every poll lists the routine and fires it with success, each scheduled minute after the first pivot is served, or absorbed by a later fire, by the first poll that has reached it |
| `SchedulerServed.MonthlyMeans` | api/routines.py:146-171 | the monthly schedule names ten o'clock on the first and nothing else |
| `SchedulerServed.MonthlySilentAfterFire` | docs/how-to/set-up-a-routine.md:320-330 | on any calendar with months of at least 28 days, the how-to's monthly routine never fires again in the process once it has fired less than twenty days late |
| `SchedulerRuns.DecideIff` | api/routine_scheduler.py:142-145 | the minute served is the first scheduled one of the horizon, once it has begun |
| `RoutinesCron.AcceptedIff` | api/routines.py:178-186 | a schedule is accepted exactly when it is empty or names a minute within eight days of the request |
| `RoutinesCron.MonthlyAcceptedIff` | docs/how-to/set-up-a-routine.md:320-330 | an otherwise valid create with the how-to's monthly schedule succeeds exactly when a first of the month at ten is within eight days |
| `Walks.BallIffReaches` | api/provenance_centroid.py:89-130 | a node is in the ball of radius d exactly when a walk of at most d arcs from a root leads to it |
| `Centroid.Walk.Collect` | api/provenance_centroid.py:89-130 | the recursive descent collects exactly the leaves at distance below the first failed depth, or as many as the cap allows |
| `Centroid.Walk.CollectUnseen` | api/provenance_centroid.py:97-130 | one layer fetched, handled and descended from |
| `Centroid.Walk.ScanRows` | api/provenance_centroid.py:107-127 | one layer's rows: leaves collected up to the cap, provenances above the last depth expanded |
| `Centroid.ArcIffNamed` | api/provenance_centroid.py:110-118 | the walk goes from a provenance that is no qa-marker to every non-empty id that a `from:` tag of it names, and from nowhere else |
| `CentroidMean.LeafIffReached` | api/provenance_centroid.py:107-127 | on any graph, the leaves are the vector-bearing deltas within four arcs that are no provenances or lie at distance exactly four |
| `CentroidMean.RootsAre` | api/provenance_centroid.py:81-83 | it starts at exactly the given ids that are more than whitespace |
| `CentroidMean.Mean` | api/provenance_centroid.py:137-147 | the accumulator loops compute each coordinate's sum over the count |
| `CentroidMean.ComputeCentroid` | api/provenance_centroid.py:64-147 | the centroid is the mean of all leaves in reach, each once, or of 300 of them, and there is none exactly when there is no leaf |
| `CentroidMean.CentroidBetween` | api/provenance_centroid.py:137-147 | each coordinate lies between any bounds on the leaves' coordinates |
| `Ancestry.BuildParentIndex` | api/search.py:1176-1191 | the parent index is the converse of citation over the rows the two queries returned |
| `Ancestry.ParentsAreNamers` | api/search.py:1176-1191 | it leads from an id to exactly the rows that have an id and name it in a `from:` tag, whitespace aside |
| `Ancestry.ParentCache.Load` | api/search.py:1166-1195 | the index returned is the converse of what the queries answer now, or answered less than a minute ago when a cached index that is not empty is reused |
| `Ancestry.ClimbOnce` | api/search.py:1228-1235 | one round finds the unseen parents of a layer, each once |
| `Ancestry.Climb` | api/search.py:1224-1238 | the ids found are the ancestors within three arcs, each once, nearest first |
| `Ancestry.ClimbedIffCited` | api/search.py:1224-1238 | an ancestor is found exactly when a chain of at most three citations leads to it from outside the seeds |
| `Ancestry.CutKeepsNearest` | api/search.py:1242 | the cut to 60 never keeps a farther ancestor over a nearer one |
| `Search.ProvenanceIds` | api/search.py:1275-1301 | the cited ids not yet seen, first occurrences in order |
| `Search.FirstSeenIds` | api/search.py:1286-1301 | those are exactly the cited ids outside the seen set, each once |
| `Search.SearchResult.Clean` | api/search.py:1036-1049 | the deduplication loop keeps the visible deltas with new ids, each once |
| `Search.SearchResult.AddStep` | api/search.py:1012-1064 | one step's listing, timelines listing nothing |
| `Search.SearchResult.ExpandSediment` | api/search.py:1304-1347 | the downward expansion asks for at most 24 cited ids and lists the new ones under `_provenance` |
| `Search.SearchResult.ExpandUpward` | api/search.py:1198-1272 | the upward expansion asks for the 60 nearest ancestors and lists the new ones under `_ascendance` |
| `Search.NoIndexNoClimb` | api/search.py:1220-1222 | an empty index has no ancestors to climb to |
| `SearchAsks.UpAsksNearest` | api/search.py:1242-1245 | the upward step asks for the first 60 of the ancestors climbed to, none of them farther than one it leaves out |
| `SearchAsks.AscendanceLists` | api/search.py:1242-1263 | with a faithful fetch it lists exactly the existing ones of those ancestors under `_ascendance` |
| `SearchAsks.DownAsksFirst` | api/search.py:1322-1328 | the downward step asks for the first 24 unseen ids that listed provenances and sediments are made from, in the order in which they name them |
| `SearchAsks.StepLists` | api/search.py:1036-1049 | a step's listing is exactly its deltas, in order, that are no turn of the chat itself and are the first such delta with their id, if they have one |
| `SearchAsks.ExpansionLists` | api/search.py:1251-1258 | an expansion lists exactly the fetched deltas, in order, that have an unseen id and are the first with it |
| `SearchAsks.PlacedLists` | api/search.py:1251-1263 | an expansion changes its own listing and no other, and nothing when it brings nothing new |
| `SearchAsks.SurfacedIff` | api/search.py:1012-1049 | an id is surfaced exactly when a step that is no timeline brings a delta with it that is no turn of the chat itself |
| `Search.BuildResult` | api/search.py:1003-1131 | the final listings are those of the steps, then the step down, then the step up; they are pairwise disjoint, and the total exceeds their number of ids by the number of lost ones |
| `SearchTotal.SurfacedListedOrLost` | api/search.py:1036-1064 | every id the steps surface is either listed once or lost, never both |
| `SearchTotal.StepsLoseNothing` | api/search.py:1012-1064 | a plan with distinct step ids, as the executor demands (delta-store/deltas/plan.py:244-249), loses nothing: every surfaced id is listed exactly once |
| `SearchTotal.TotalExactIff` | api/search.py:1063-1128 | for such a plan the total is the number of listed ids if and only if neither expansion replaces, under `_provenance` or `_ascendance`, a list that holds an id |
| `SearchTotal.PlainPlanIsExact` | api/search.py:1063-1128 | when no plan step carries one of those two ids the total is the number of listed ids, each listed once |
| `SearchTotal.AscendanceStepMiscounts` | api/search.py:1242-1263 | a one-step plan named `_ascendance` whose only delta the climb replaces: two ids counted, one listed |
| `Search.DisjointTotal` | api/search.py:1128 | with disjoint listings the ids listed and the distinct ids are equally many |
| `Thread.Tail` | api/thread.py:170-195 | the sorted last rows, for any integer limit, trimmed to the longest suffix that fits the budget but never to nothing |
| `Thread.TailLimitIff` | api/thread.py:182-187 | the limit holds exactly when it is positive, or zero and nothing was read; a negative one drops the oldest messages instead |
| `Thread.TailKeepsNewest` | api/thread.py:182-192 | whatever limit and budget, the tail is in the order of its times and no row left out is newer than one it holds; with a positive limit and no budget it holds as many as the limit allows |
| `Thread.MessageCosts` | api/thread.py:161-167 | each message costs twenty tokens and one for every four characters begun |
| `Thread.Unaddressed` | api/thread.py:205-225 | the user messages that no tally mark covers, in order |
| `Thread.AddressedIff` | api/thread.py:217-225 | an id counts as addressed exactly when some mark carries its tag |
| `Thread.PendingIff` | api/thread.py:205-225 | a row is pending exactly when its first role tag says user and no mark carries the tag of its id |
| `Thread.BuildWindow` | api/thread.py:228-243 | the pending messages are at most the window size |
| `Thread.AnyPendingCount` | api/thread.py:213-225 | each pending count up to the window size occurs |
| `LlmGate.Gate.IsDown` | api/loop/llm_gate.py:76-103 | the answer is right for a state of the lake less than five seconds old, and for the present one after an invalidation |
| `LlmGate.Gate.ClaimProbe` | api/loop/llm_gate.py:132-147 | granted exactly when the key's last probe is an interval ago; other keys untouched |
| `Supervisor.SupervisorLoop.Turn` | api/loop/threaded_supervisor.py:83-166 | one turn of the loop is `Step` on the pending count of the window and the gate's answer |
| `Supervisor.SupervisorLoop.Held` | api/loop/threaded_supervisor.py:109-119 | messages are held exactly when the gate is down and no probe is due |
| `Supervisor.TurnFiresIff` | api/loop/threaded_supervisor.py:83-139 | after every run a turn fires exactly when something is pending, the gate is up or grants a probe, and fewer messages are pending than at the latest fire if five or more have gone by since the count was reset; what resets it |
| `Supervisor.AtMostNineteenFires` | api/loop/threaded_supervisor.py:83-139 | between two resets at most 19 fires happen, whatever arrives and whatever is addressed |
| `Supervisor.StuckQueueStopsAtFive` | api/loop/threaded_supervisor.py:124-136 | while the pending count never shrinks, at most five fires happen between two resets |
| `Supervisor.StuckQueueFiresOn` | api/loop/threaded_supervisor.py:121-139 | while the gate is up and no fire is cancelled, a queue that does not move is fired at five times in every six polls, however long the run |
| `Supervisor.NineteenFiresHappen` | api/loop/threaded_supervisor.py:124-139 | a run with 19 fires and no reset |
| `Supervisor.ProbesSpaced` | api/loop/threaded_supervisor.py:109-119 | two fires made while the gate is down are at least the probe interval apart |
| `AcpClient.Client.OnStdoutChunk` | addons/agent/acp_client.js:97-113 | the framing loop drains every complete line of the buffer |
| `AcpClient.Client.HandleMessage` | addons/agent/acp_client.js:115-132 | a response to a pending request settles it; anything else settles nothing |
| `AcpClient.Client.Issue` | addons/agent/acp_client.js:197-205 | a request takes the next id and stays pending even when its send fails; a closed client issues none |
| `AcpClient.Client.OnTimeout` | addons/agent/acp_client.js:207-213 | a timeout settles a request that is still pending and nothing else |
| `AcpClient.Client.OnExit` | addons/agent/acp_client.js:81-94 | exit and error reject everything pending in order |
| `AcpText.HandledIsText` | addons/agent/acp_client.js:97-132 | in every run, whatever is interleaved, the messages handled are those on the complete lines of all chunks joined, up to the first null line, which alone brings the process down, and a live client's buffer is the unread rest |
| `AcpText.InterleavingIsInvisible` | addons/agent/acp_client.js:97-132 | two runs over the same text handle the same messages |
| `AcpClient.ChunkingIsInvisible` | addons/agent/acp_client.js:97-113 | two ways of cutting the same output into chunks, with nothing in between, end in the same state, the unread buffer of a dead process aside |
| `AcpClient.DrainHandles` | addons/agent/acp_client.js:97-113 | the messages handled are those on the complete lines, in order, up to the first null line, which brings the process down |
| `AcpClient.LeftoverHasNoNewline` | addons/agent/acp_client.js:97-103 | what stays in a live client's buffer holds no newline |
| `AcpClient.IdsAccountedFor` | addons/agent/acp_client.js:197-221 | in every run each issued id is in exactly one of pending and settled, once |
| `AcpClient.SettlesAtMostOnce` | addons/agent/acp_client.js:115-132 | no request settles twice, whatever late or repeated responses arrive |
| `AcpSettle.MessageSettles` | addons/agent/acp_client.js:115-132 | a response to a pending request settles that request, as its error says, and takes it and no other off the pending ones; any other message settles nothing |
| `AcpSettle.ChunkSettles` | addons/agent/acp_client.js:97-132 | in every run a chunk settles exactly the pending requests that the messages it completes answer, each as its first answer says |
| `AcpSettle.OtherSettles` | addons/agent/acp_client.js:81-213 | a timeout settles its own request if still pending, an exit rejects all in the order of issue, a request settles nothing |
| `AcpSettle.SettledOnlyByCause` | addons/agent/acp_client.js:81-132 | a request is resolved or fails only by a handled response to it, times out only by its own timeout and is rejected as gone only by an exit |
| `AcpClient.NothingPendingAfterExit` | addons/agent/acp_client.js:81-94 | after exit nothing is ever pending again, nothing is issued, and every issued id has settled |
| `Puddle.PuddleStore.Write` | api/loop/puddle.py:105-137 | the stored delta's expiry and timestamp, and that every subscriber's queue sees it |
| `Puddle.PuddleStore.RunQuery` | api/loop/puddle.py:158-186 | the filtering loop, stable sort and limit compute `Answer` |
| `Puddle.AnswerMeaning` | api/loop/puddle.py:158-186 | an answer holds only alive, matching deltas, newest or oldest first as asked, and the limit leaves out none that sorts before one it keeps |
| `Puddle.AnswerInOrder` | api/loop/puddle.py:158-186 | for every limit, negative ones included: an answer holds what was asked for, timestamps never increasing or never decreasing, as many as the limit leaves, and nothing newer, or older, is left out than it holds |
| `Sequences.SortIsStable` | api/loop/puddle.py:185 | sorting keeps the order of equal keys |
| `Puddle.PuddleStore.Get` | api/loop/puddle.py:188-198 | the first delta with the id, unless expired |
| `Puddle.LookupIsFirst` | api/loop/puddle.py:188-198 | the first delta written under the id decides: none once it has expired, whatever follows it |
| `Puddle.PuddleStore.Reap` | api/loop/puddle.py:202-217 | exactly the expired deltas are dropped and counted |
| `Puddle.Subscription.Put` | api/loop/puddle.py:124-136 | after a write the queue is the newest part of the backlog that fits |
| `Puddle.Subscription.Take` | api/loop/puddle.py:238-251 | deliveries follow the order of writing, none twice, and none is skipped while the backlog fits |
| `Puddle.ReapInvisibleToQuery` | api/loop/puddle.py:163-186 | every query returns what it would had nothing been reaped |
| `Puddle.ReapInvisibleToGet` | api/loop/puddle.py:188-198 | so does every lookup by id |
| `Puddle.ReapHidesIff` | api/loop/puddle.py:202-217 | a reap hides something alive exactly when some delta expires after the reader's time and by the reap's |

## Left out

- Lake query limits (50, 200, 500, 3000): queries return every matching row.
- The order of ISO timestamp strings, time zones and daylight saving: times are integers, and the calendar is an uninterpreted function of the minute. Timestamps that do not parse appear only in the puddle.
- Unicode: character classes are ASCII, plus the line breaks of `str.splitlines`; `int()` accepts no underscores.
- The watcher's mirroring of closures into the puddle and its thread row, which is appended even when the intent write fails: only intents are minted at most once.
- WatcherRuns.AtMostOnce: says nothing about thread rows, for the reason above, and takes no prime whose clock reads before the lake's newest row; `WatcherTick.RemintedIff` says what such a prime mints again.
- WatcherSpawn.ClosureMintedIff: takes a closure newer than every other of its correlation; of two with the same timestamp the sort keeps the one it met first.
- WatcherSpawn.ClosedFloorIs: the same.
- RoutinesRuns.PlainRunRefines: covers field values without line breaks and addressable ids without edge whitespace; `RunRefines` covers all requests.
- RoutinesRuns.WriteReadsBack: covers specs without line breaks in known values; `FrontmatterAny.RoundTripAny` says what the others parse to.
- FrontmatterRoundTrip.RoundTrip: the same, for the same reason.
- FrontmatterRoundTrip.RenderIsFixpointIff: the same; a value with a line break can spell out further known fields, and such text may reproduce itself.
- SchedulerServed.MonthlySilentAfterFire: says nothing of a fire made twenty days late or more, for which `FiredThenSilentIff` holds.
- SchedulerRuns.SlotsServedOnce: assumes that each tick receipt is written with a lake timestamp not before the fire and that hydration can read the tick receipts; `ServedTwiceIff` says what a lost receipt costs.
- Relief.ReliefValve.Cascade: all picks of a burst read one clock and one pressure; a cooldown that lapses, volume that arrives or a lake read that fails (it counts fresh volume as none) in the middle of a burst or between gate and burst is not modelled.
- Centroid.Walk.Collect: a batch fetch returns one row per distinct existing id.
- Puddle.ReapInvisibleToGet: ids are unique, as random identifiers are.
- The routine-due intent's text, fires that fail because a name reads back as a number, and the failure of the delete that follows a single fire.
- `preview_fires` and `describe_schedule`: repeated search and wording.
- The sequential deduplication of the lake, which drops a write identical to the one before it.
- A send that fails in the ACP client rejects the caller while the id stays pending; only the id's place is modelled, not the caller's second rejection at exit.
- Client-side methods of the ACP agent, stderr and process control.
- The abstain gate, valence rerank, engagement clouds, sediment synthesis and all rendering of a recall.
- Concurrency within one call: calls of the relief valve, the stores and the supervisor run one after another; only the watcher's tick is taken apart into its single reads and writes.
- The file persistence of the drift history, cooldowns and pressure state: the state is kept in fields.
- HTTP routes, server-sent events, model calls, prompts, the dashboard, the browser extension, pairing, contacts, source runners and the agent's pusher.
