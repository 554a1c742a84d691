# Mighty: verified model of the checking core

Mighty pulls usernames from a live list, asks an endpoint about each one through a
health-tracked rotation of proxies under an adaptive concurrency cap, and lets a single
writer turn answers into files and deletions. This project models what is left when the
network is taken away: a family of state machines and text algorithms that promise each
other a good deal. `dafny verify dfyconfig.toml` checks all of it.

Every object whose methods update fields is a class with those fields, and every loop of
the program is a loop here. A class method is proved against a function on the class's
state as a value (`State()`, `View()`); the theorems are about those functions and about
runs of them. Everything that happens under a lock is one step, and runs interleave steps
freely.

| file | what it models |
|---|---|
| `ListFile.dfy` | loading the usernames file, and rewriting it without the found names |
| `Sink.dfy` | result files: buffered writers that fail for good, duplicate suppression, the latched error |
| `HitProtocol.dfy` | writer, any number of overlapping prune flushes, I/O failures and user edits, interleaved |
| `Worklist.dfy` | the live list: cursors, cached count, two-phase replace |
| `ProxyPool.dfy` | quarantine, latency, slow-skipping, picking with exclusion |
| `Resolution.dfy` | resolving one name over an arbitrary environment, composed with the pool; the retry pause |
| `Limiter.dfy`, `Wakeup.dfy` | the adaptive cap over the reals; who wakes a parked `acquire` |
| `RateLimits.dfy` | token bucket per proxy, and the trailing rate window |
| `Socks.dfy` | SOCKS5 (RFC 1928, RFC 1929) and SOCKS4/4a over a byte stream |
| `ProxyLine.dfy` | proxy lines and the cache key |
| `Scanners.dfy`, `Console.dfy` | JSON field scans and verdicts; width-limited coloured text |
| `Text.dfy`, `Modulo.dfy` | string operations and remainders the above share |

Places where the code does less than its comments or a first reading suggest, each with a
concrete input or a proved exact condition:

- If available.txt does not end in a line end when it is opened (an editor can leave it so,
  and so can a full disk that cuts an earlier flush short), the first name appended merges
  with its last line, and neither is on record any more, though both are pruned when found
  (`FoobarIsNoRecord`; `OpenLineLosesTheHit` and `HitIsDurableExactly` are exact). The
  results about lost hits are stated with and without this case. A name is durable there
  when it has a terminated line of its own; a name on the open line itself is not, although
  the next start still reads it until something is appended (`HitIsOnRecordExactly` and
  `OpenLineTakesTheHitOffRecord` are exact for that reading).
- A user edit saved between a flush's read of the list file and its rename is overwritten
  (`EditInsideTheWindowIsLost`; `RenameLosesExactlyUnreadNames` is exact).
- Two flushes can overlap, and the one that read the file first can rename last: the name
  the other took out is then in the file again (`OlderSnapshotBringsNameBack`;
  `RenameBringsBackExactly` is exact, and says such names are retired and accounted for).
- A list line `name:id` is checked under its bare name but never taken out of the file
  (`LinesWithIdsStay`), and one name with two ids starts the run twice, which makes the live
  count drift (`TwoIdsMiscount`; `LiveCountFromStart` is exact).
- `nextExcluding` can return the avoided proxy although another is awake
  (`AvoidedProxyCanBePicked`; `PickIsSecondOpinion` is exact). Its comment promises more.
- `retire` miscounts a name that is not on the list or is on it twice (`RetireIsExact` is
  exact), and the miscount can end a run early (`LateRetirementStopsTheRun`).
- A full round is not counted as a pass once the last entry is retired
  (`PassCountNeedsLastEntry` is exact).
- A byte-order mark in the middle of the list file changes a name when the lines above it
  are removed (`MidFileBomChangesName`; `RewriteKeepsNames` and `RewriteCommutesWithLoad` are
  exact).
- The JSON scan does not look at a key that shares its opening quote with the key before it
  (`ScanMissesSharedQuote`; `ScanIsExactWhen` is exact).
- A populated error list does not keep a reply from being a verdict, as its comment has it:
  it is one if something in it says taken (`ErrorListCanBeTaken`; `Interpret` is exact).
- The password of a `host:port:user:pass` line is not free: with `://` anywhere in the line
  it is rejected for an unknown scheme (`PasswordWithSchemeMark`), and white space at its end
  is lost (`BareLineParses` and `BareLineRoundTrips` are exact).
- With a user and no password, or the reverse, the SOCKS5 credentials sent are ones RFC 1929
  does not allow (`EmptyPasswordIsSent`; `ProxyReadsRequest` is exact).
- A SOCKS4 request is ambiguous for zero bytes, which percent-decoding can put into a user
  (`EscapedZero`, `ZeroByteCutsUser`), and for literal 0.0.0.x addresses
  (`MarkerAddressIsNoRequest`; `Request4ReadsBack` is exact).

## Model

| member | source | states |
|---|---|---|
| HitProtocol.StepKeepsInv | main.go:1646-1695 | each step of writer, flushes and user keeps: every queued or swapped-out name is accounted for (on disk, or a victim of an open last line) or a failure is latched, checked batches are accounted for outright, a clean flush agrees with the file on every name not yet accounted for |
| HitProtocol.RunKeepsInv | pruner.go:72-146 | the same over every interleaving |
| HitProtocol.RemovedNamesAreDurable | pruner.go:118-131 | no hit is lost: in every reachable state, whatever a rename takes out of the file it read is on a line of its own in available.txt, or is one of the at most two victims of a last line left open at the start; none are if it was terminated |
| HitProtocol.TakenOutStaysOnRecord | main.go:231-236 | over any sequence of runs, each ended anywhere and the next opened on the available.txt it left, whatever a rename ever took out of the list has a line of its own in the last one, the victims of the line open at the start of its own run apart |
| HitProtocol.NothingTheUserWantsIsLost | pruner.go:14-24 | conservation: unless a raced rename has happened since the user's last save, every name saved then is in the file or in available.txt, those victims apart, whatever failed and whatever was lost before |
| HitProtocol.CleanRenameKeepsUndurable | pruner.go:126-138 | a rename without such an edit leaves exactly the same not yet accounted for names in the file |
| HitProtocol.RenameLosesExactlyUnreadNames | main.go:1924-1996 | a rename destroys a name that is not accounted for if and only if the file holds one that was not there when it was read |
| HitProtocol.OnlyRacedRenamesLose | main.go:1924-1996 | an edit-free window never meets that condition |
| HitProtocol.RenameBringsBackExactly | pruner.go:104-131 | a rename puts a name that is not in the file back into it if and only if its flush read it and was not to drop it; without an edit in its window such a name is retired and accounted for |
| HitProtocol.OlderSnapshotBringsNameBack | pruner.go:104-131 | a run: for any two names, a fault-free and edit-free run of two overlapping flushes that ends with the second name back in the file |
| HitProtocol.EditInsideTheWindowIsLost | main.go:1924-1996 | the failing run: for any two names, a fault-free run from the start in which the user saves the second inside the window of the flush for the first ends with it wanted, but neither in the file nor in available.txt |
| HitProtocol.OpenLineLosesTheHit | main.go:236-291 | over any earlier available.txt a fault-free run finds a name and prunes it; the name then has a terminated line of its own if and only if the earlier text ended in a line end (or blanks) or such a line recorded it already |
| HitProtocol.OpenLineTakesTheHitOffRecord | main.go:255-272 | after that run the next start reads the name if and only if one of these holds or the name was loaded, from the open line too |
| HitProtocol.FoobarIsNoRecord | main.go:236-291 | such a run: over a file holding foo without a line end, the hit bar leaves the one line foobar and no record of either |
| HitProtocol.HitsAreHandledOnce | main.go:1650-1658 | late copies of an answer are dropped: in every reachable state the counted hits are distinct ignoring case; the lines added to available.txt repeat neither each other nor what it held; and the names queued, waiting or in any flush, are pairwise distinct and retired, so never hits again |
| HitProtocol.KeptListIsUntouched | main.go:671-675 | in every run that keeps the list nothing is ever queued or flushed, and the file is at every moment the one the run started with or the one the user saved last |
| HitProtocol.EveryHitIsAccountedFor | main.go:1678-1691 | in every other run the names found are exactly those at hand, queued, in a flush, taken out by a rename that went through, or given up by a flush that failed |
| HitProtocol.RunIsItsSteps | main.go:1646-1695 | over every run, told from its steps alone: when a raced rename has happened since the last save, what the result files were asked to write, and that the names out of the rotation are the hits, once on disk, and the invalid ones |
| HitProtocol.FailureStopsPruning | pruner.go:118-124 | the latch is never cleared and once set no flush passes its check |
| HitProtocol.FlushIsFourSteps | pruner.go:104-146 | an uninterrupted flush equals the protocol's take, check, read, rename |
| HitProtocol.ListPruner.FlushPending | pruner.go:104-146 | one flush: the batch is always emptied, the file changes exactly when nothing failed, and the reported counts are those of the new file |
| HitProtocol.ListPruner.Add | pruner.go:72-84 | queueing touches the file only when the batch limit is reached |
| Sink.ResultSink.constructor | main.go:221-272 | available.txt keeps the text it held, terminated or not, and its trimmed lines prime duplicate suppression; the other files start empty |
| Sink.ResultSink.RecordLine | main.go:275-291 | the method computes the model's record step, failure latch included |
| Sink.ResultSink.FlushOne | main.go:305-311 | the method computes the model's flush step |
| Sink.RunLatchIsExact | main.go:199-219 | in every run the sink reports a failure if and only if one of its writers has met one |
| Sink.LatchIsExact | main.go:199-209 | and from then on it goes on reporting it |
| Sink.HitIsDurable | main.go:1723-1729 | after recording and flushing a hit it is on a line of its own on disk or the failure is latched, whatever the disk does, if the file was terminated when opened |
| Sink.HitIsDurableExactly | main.go:275-291 | for any file: without a failure the hit is on a terminated line of its own if and only if one recorded it already, or it had not been seen and either the file was terminated when opened or something had been appended since |
| Sink.HitIsOnRecordExactly | main.go:255-291 | for any file: without a failure the next start reads the hit if and only if a terminated line recorded it, or it had been seen and is on the open line, or it had not been seen and either the file was terminated when opened or something had been appended since |
| Sink.RecordKeepsPromise | main.go:275-291 | recording never takes anything off disk, never unlatches, and only claims to have seen what is logged, even when a write stops in the middle of a line |
| Sink.FlushKeepsPromise | main.go:305-311 | a flush either latches or leaves everything logged on disk |
| Sink.RunWritesNothingTwice | main.go:231-236 | over all runs and failures, what is appended to available.txt repeats neither itself nor what the file held before |
| Sink.RunHoldsWhatWasRecorded | main.go:274-291 | as long as no write fails no failure is reported, and each of the four files holds what it held at open and then exactly the lines recorded for it, in order: each once for available.txt, and for all four when looping, every time otherwise |
| Sink.FaultFreeFlush | main.go:305-311 | and a flush puts all of a bucket on disk |
| Sink.FailedFlushOpensLine | main.go:231-250 | a flush that fails inside the line leaves the file with an open last line and the failure latched |
| ListFile.LoadLines | main.go:1869-1907 | the loop yields the trimmed, non-comment lines, first spelling of each name, order kept, for any line endings |
| ListFile.RemoveFromList | main.go:1915-1997 | the loops yield the rewritten text and the number of name lines in it; nothing to remove leaves the file alone |
| ListFile.RewriteCommutesWithLoad | main.go:1869-1971 | loading the rewritten file gives the loaded names minus the removed ones ignoring case, in order, for LF, CRLF and mixed endings, if and only if no mid-file byte-order mark became the first character, or its line is no name without it and the next name is the one it was with it |
| ListFile.RewriteKeepsNames | main.go:1928-1949 | before duplicate removal the same holds if and only if no mid-file byte-order mark became the first character |
| ListFile.RewriteKeepsLines | main.go:1909-1914 | comments, blank lines and surviving names keep their order and their indentation, up to white space at line ends and blank lines at the end; a file that loses every line becomes one empty line |
| ListFile.RewriteKeepsStyle | main.go:1934-1971 | without a CRLF in the file the lines that stay are byte for byte the old ones; with one, every line of the new file ends in CRLF |
| ListFile.PoppedAreBlank | main.go:1952-1955 | what is dropped at the end is exactly the run of blank lines there |
| ListFile.RewriteKeys | main.go:1915-1971 | for a plain text file the names offered afterwards are exactly the old ones minus the removed, and it stays plain |
| ListFile.MidFileBomChangesName | main.go:1928-1932 | a concrete file on which load and rewrite disagree |
| ListFile.LoadIsDistinct | main.go:1880-1902 | a loaded list holds no name twice, ignoring case |
| ListFile.OfferedKeys | main.go:1885-1902 | a file offers exactly the keys of its lines that, trimmed, are neither empty nor start with a number sign |
| ListFile.FirstSpellingStays | main.go:1893-1902 | one more line adds its name at the end, as it is spelt there, unless a line above has it |
| ListFile.KeyIgnoresCase | main.go:1896 | two names have one key if and only if they differ in the case of ASCII letters only |
| ListFile.CheckUsername | check.go:81-96 | the loop accepts exactly 1 to 30 ASCII letters, digits, dots and underscores |
| ListFile.LoadStartNames | main.go:422-434 | the loop over the loaded names yields each without its id |
| ListFile.LinesWithIdsStay | main.go:1934-1949 | no hit ever takes a line with an id out of the file |
| Worklist.WorkList.Claim | worklist.go:76-115 | hands out the least live index from the cursor, cyclically or once, and moves the cursor past it; refuses when closed, cancelled or out of live names |
| Worklist.WorkList.Retire | worklist.go:130-143 | the whole new state of a retirement, and the count returned |
| Worklist.WorkList.CommitReplace | worklist.go:172-191 | the second critical section: optimistic count when the generation is unchanged, recount otherwise |
| Worklist.WorkList.Snapshot | worklist.go:202-212 | exactly the live entries, in order |
| Worklist.Count | worklist.go:163-169 | the counting walk counts the live entries |
| Worklist.GenerationDetectsRetirement | worklist.go:49-51 | in every run the copied generation is current if and only if the retired set is unchanged |
| Worklist.ReplaceIsAtomic | worklist.go:153-192 | whatever happens between the two critical sections, afterwards the list is the new one, the count is its number of live entries, the cursor stays where it was or starts over when that is past the end, and nothing else moves |
| Worklist.RetireIsExact | worklist.go:130-143 | from an exact count, it stays exact if and only if the name was retired already, is listed exactly once, or nothing was live |
| Worklist.LiveCountIsExact | worklist.go:130-192 | the count is exact through every run that installs lists without repeats and retires only listed names |
| Worklist.LiveCountFromStart | main.go:429-434 | from the start of a run over any list file, the count is exact through all such runs if and only if no two names, stripped of their ids, are the same |
| Worklist.TwoIdsMiscount | resolve.go:384-390 | a file on which it is not: a:1 and a:2 |
| Worklist.LateRetirementStopsTheRun | worklist.go:130-143 | a three-step run after which a live name is refused |
| Worklist.FullRoundIsFair | worklist.go:71-75 | the next `live` claims hand out every live index exactly once, from any cursor |
| Worklist.RoundRobin | worklist.go:98-113 | any number of claims repeats the same round for ever |
| Worklist.NoStarvation | worklist.go:98-113 | with retirements interleaved, an index that stays live waits for at most n - 1 other claims |
| Worklist.CyclingClaimSucceeds | worklist.go:71-82 | with an exact count a cycling claim is refused only when closed, cancelled or nothing is live |
| Worklist.SinglePass | worklist.go:84-96 | a single pass hands out strictly increasing indices, and every index the cursor passes was handed out at that step or retired before it |
| Worklist.SinglePassRefuses | worklist.go:84-96 | a single-pass claim is refused exactly when closed, cancelled, counted down to zero, or nothing live is ahead |
| Worklist.FreshListInOrder | worklist.go:60-113 | a new list is handed out from its first name to its last; then a single pass is over and a cycling one has counted one pass |
| Worklist.ClosedForGood | worklist.go:76-82 | a closed list hands out nothing in any run |
| Worklist.PassCountNeedsLastEntry | worklist.go:107-111 | a full round raises the pass count by one if and only if the last entry is live |
| ProxyPool.Rotation.NextExcluding | proxy.go:419-483 | the loop with its budget, exclusion and counters computes the model's pick |
| ProxyPool.Rotation.Refresh | proxy.go:373-402 | sweep and recount, at most once per interval |
| ProxyPool.Rotation.RecordOK | proxy.go:488-510 | clears streak and quarantine, folds in the latency |
| ProxyPool.Rotation.RecordFailure | proxy.go:521-536 | counts the streak and quarantines at the third |
| ProxyPool.RotationVisitsAll | proxy.go:447-448 | one call looks at each place of the list exactly once |
| ProxyPool.PickIsSecondOpinion | proxy.go:410-483 | no proxies give none; otherwise a member; and an awake one other than the avoided if and only if one will not be stepped over or the fallback lands on one |
| ProxyPool.CursorFollowsPick | proxy.go:447-483 | after a pick the cursor stands right behind the proxy handed out, or where it was when only the avoided one was left |
| ProxyPool.PassedAreSlow | proxy.go:430-474 | passed over is only an awake proxy more than four times as slow as the fastest and passed over fewer than nineteen times; at most half the pool in one call |
| ProxyPool.SlowIsPassed | proxy.go:462-470 | and such a proxy is, when the rotation comes to it first |
| ProxyPool.QuarantinedPoolRotates | proxy.go:423-428 | with everything asleep any number of picks walk the list in order, whatever is slow or to be avoided |
| ProxyPool.EnoughProxiesGiveSecondOpinion | proxy.go:441-475 | more other awake proxies than half the pool, or one and none slow, are enough |
| ProxyPool.AvoidedProxyCanBePicked | proxy.go:454-478 | after a run of three events on a two-proxy pool the avoided one is picked although the other is awake |
| ProxyPool.EveryRunKeepsInv | proxy.go:310-316 | in every run from a new pool the cached health equals a full scan, streaks stay below the threshold and skip counters below the interval |
| ProxyPool.SlowProxyIsReprobed | proxy.go:462-474 | a slow proxy is passed over at most 19 times before the loop settles on it |
| ProxyPool.ThreeStrikes | proxy.go:521-536 | three failures in a row and no fewer put a proxy to sleep for the quarantine period |
| ProxyPool.FailsCountTheStreak | proxy.go:485-536 | in every run the failure count is the number of failures since the last answer, counted in threes |
| ProxyPool.AsleepExactly | proxy.go:373-402 | in every run a due sweep finds a proxy out if and only if its last third failure in a row is at most a minute old and it has not answered since |
| ProxyPool.QuarantineHolds | proxy.go:512-536 | until its minute is over a sleeping proxy that does not answer stays asleep through any run and the loop never settles on it |
| ProxyPool.FastestIsLeast | proxy.go:385-401 | the reference latency is the least measured one among awake proxies |
| ProxyPool.LatencyFollowsSamples | proxy.go:501-509 | in every run a proxy's latency is that of its measured round trips, each moving it three tenths of the way, and none for one never measured |
| ProxyPool.SmoothedStaysBetween | proxy.go:505-509 | so it stays within the range of what was measured |
| ProxyPool.SweepsExactlyWhen | proxy.go:373-377 | a sweep happens if and only if none did in the 200 milliseconds before |
| ProxyPool.HealthyPoolRotates | proxy.go:404-408 | with everything awake and nothing slow, any number of picks, whenever they are made, walk the list in order |
| Resolution.CheckWithRetries | main.go:1368-1499 | over any environment: the requests made are those of the one complete log, each available answer confirmed at once and nothing else confirmed; taken wins and ends it; available needs two matching answers and is unflagged exactly when their proxies differ; error exactly when nobody answered; at most 2 max(2, retries) + 4 requests; an undecided, uncancelled run with at most four drops used its full answer budget |
| Resolution.LogIsDetermined | main.go:1388-1484 | there is only one complete log: who is asked, what is confirmed, when it goes on and where it ends are all fixed by the environment |
| Resolution.ResultIsDetermined | main.go:1412-1499 | and only one result that was promised of it |
| Resolution.AllAvailableIsAvailable | main.go:1416-1442 | when every answer says available and nothing is cancelled the verdict is available, after two requests, or one without confirmation |
| Resolution.SameProxyMeansCornered | main.go:1423-1434 | a confirmation reuses the first proxy only when the pool was about to step over every other awake one |
| Resolution.HealthyPoolConfirms | main.go:1351-1355 | with enough awake proxies the confirmation comes from another, awake one |
| Resolution.RetryPause | tuning.go:407-433 | for every attempt number, half the doubled pause (80 ms doubled per attempt, up to 800) plus the jitter, up to 800; so between half the doubled pause and the ceiling |
| Limiter.AdaptiveLimiter.GrowLocked | tuning.go:217-238 | the method computes the growth step |
| Limiter.AdaptiveLimiter.RecordThrottle | tuning.go:259-304 | the method computes the cut, its cooldown and the edge memory |
| Limiter.AdaptiveLimiter.SetCeilingTo | tuning.go:308-323 | the method computes the ceiling move the next two rows are about |
| Limiter.CeilingIsObeyed | tuning.go:308-344 | under a ceiling the room is the lower of it and what was asked for, the reported cap is at most the ceiling, the cap comes down to it but not below the floor, and never goes up; without one there is all the room and the cap stays |
| Limiter.LastCeilingRules | tuning.go:306-344 | in every run the room is the one the last ceiling move asked for, and no admission after it leaves more in flight |
| Limiter.AdaptiveLimiter.TryAcquire | tuning.go:130-156 | one pass of the admission loop: admitted, cancelled or parked |
| Limiter.LimiterStaysInBounds | tuning.go:113-127 | in every run floor <= cap <= requested, floor <= edge <= requested, and in flight never exceeds requested |
| Limiter.CutLeavesRoom | tuning.go:275-303 | a cut takes three tenths down to the floor, starts the clean streak afresh and leaves the cap at or below the edge; the first puts the edge there, a later one moves it a twentieth of the way down |
| Limiter.CutsAreSpaced | tuning.go:267-272 | any burst of throttled answers makes cuts at least a cooldown apart |
| Limiter.CutsExactlyWhen | tuning.go:267-272 | a throttled answer cuts if and only if none did in the second before |
| Limiter.ProbesWaitForQuiet | tuning.go:242-255 | a probe widens only after a whole interval without growth or cut |
| Limiter.ProbesExactlyWhen | tuning.go:242-255 | a tick widens the cap if and only if there is room and neither a cut nor a growth happened in the five seconds before |
| Limiter.QuietRunClimbs | tuning.go:240-255 | a run without definite answers climbs too: every such tick is a growth step, up to the lower of edge and headroom |
| Limiter.SixteenCleanAnswers | tuning.go:199-215 | in every run the sixteenth clean answer since the last cut or growth by clean answers widens the cap if there is room, and no other clean answer does |
| Limiter.StartsAfresh | tuning.go:113-127 | the edge is known exactly from the first cut on, and clean answers count from none |
| Limiter.GrowthRespectsEdge | tuning.go:217-238 | growth from below the edge adds half but never passes it, from above adds one, and never passes the headroom; without headroom nothing moves |
| Limiter.CountersAreExact | tuning.go:232-304 | in every run the two counters are how often growth raised the cap and throttled answers lowered it |
| Limiter.RecoveryBound | tuning.go:193-238 | from every reachable state and thread count, 160 clean answers without a cut or ceiling move bring the cap to the lower of edge and headroom |
| Limiter.AdmissionWithinCurrent | tuning.go:334-344 | right after an admission the requests in flight are within the reported cap |
| Limiter.IdleAlwaysAdmits | tuning.go:130-137 | an idle limiter admits, even under a ceiling below the floor |
| Limiter.StartsWideOpen | tuning.go:110-127 | of any number of callers at once a new limiter admits as many as it was asked for, at least one |
| Limiter.FloorIsATwentieth | tuning.go:103-117 | and can fall to a twentieth of that, rounded down, but not below one |
| Limiter.DisabledStays | tuning.go:130-137 | switched off, nothing moves in any run |
| Limiter.InflightIsAdmissionsMinusReleases | tuning.go:154-191 | under paired use the counter is admissions minus releases |
| Wakeup.StepKeepsInv | tuning.go:137-191 | every step keeps: at most one poker, alive exactly when the flag says so, alive whenever anyone waits; counters count |
| Wakeup.ParkedHasPoker | tuning.go:142-151 | in every interleaving a parked waiter has a live poker that can step |
| Wakeup.PassDecides | tuning.go:137-155 | a pass under the lock lets a caller in if and only if there is room, and parks it if and only if there is none and its context lives |
| Wakeup.RoomIsTaken | tuning.go:159-175 | a parked caller is let in by the poker's next tick when there is room and nothing else moves, signalled or not |
| Wakeup.WakesEverybody | tuning.go:172-238 | growth and the poker wake every parked caller |
| Wakeup.SignalWakesOne | tuning.go:186-190 | a release's signal wakes the caller it reaches and nobody else |
| Wakeup.IdlePokerGoes | tuning.go:166-170 | when nobody waits the poker goes at its next tick |
| Wakeup.RunBooks | tuning.go:176-190 | in every run each release sends one signal and nothing else does, the cancelled are those cancelled, and the cap is what it was last moved to |
| Wakeup.NobodyIsForgotten | tuning.go:159-175 | a waiter stays parked through at most one poker step, whatever signals were lost or cap moves went unannounced |
| Wakeup.CancelledWaiterLeaves | tuning.go:137-142 | in any interleaving a caller whose context has ended is off the condition for good once the poker has taken two steps |
| TokenBuckets.IPRateLimiter.TryTake | ratelimit.go:47-66 | one turn under the lock: refill, take or the pause still needed |
| TokenBuckets.IPRateLimiter.Wait | ratelimit.go:43-76 | among any competitors a caller sleeps at most once more than there are sleeps in which a rival turned up at its bucket, and fails only when cancelled |
| TokenBuckets.SleeperIsOvertaken | ratelimit.go:55-66 | a caller refused after its sleep was overtaken: a rival took a token of the same bucket meanwhile |
| TokenBuckets.AdmissionsAreBounded | ratelimit.go:11-39 | for each key, any run and any stretch T, admissions are at most burst + rate * T, where the burst is a second's worth, at least one and at most ten |
| TokenBuckets.NewKeyHasBurst | ratelimit.go:37-58 | and the burst is there: a key nobody has used is admitted that often at once |
| TokenBuckets.TokensStayInRange | ratelimit.go:55-60 | tokens stay between zero and the burst |
| TokenBuckets.KeysAreIndependent | ratelimit.go:49-54 | a key's bucket and admissions do not depend on other keys' turns |
| TokenBuckets.SleepIsEnough | ratelimit.go:62-66 | the computed pause, or a longer one, leaves a whole token |
| RateWindows.RateWindow.Add | tuning.go:371-397 | the answer is the whole number of counts per second that fits between the newest sample at or before the cutoff and now: rate * dt <= growth < (rate + 1) * dt; zero for a counter that fell or no time |
| RateWindows.SteadyCounterReads | tuning.go:388-396 | there is one such answer, and a counter that grew by r a second reads r |
| RateWindows.PruningRefinesHistory | tuning.go:374-386 | the kept samples are the history from an index on if and only if that index is the newest sample at or before the cutoff, or the first if there is none |
| RateWindows.KeptLieInWindow | tuning.go:374-386 | every kept sample but the first is inside the window |
| Socks.DialSOCKS5 | socks.go:131-271 | on any inbox the method sends, consumes and decides as the stream function says |
| Socks.ValidServerOpensTunnel | socks.go:143-262 | for every valid server stream followed by any bytes the handshake succeeds and leaves exactly those bytes |
| Socks.OnlyValidServersOpen | socks.go:143-262 | it succeeds on no other stream |
| Socks.OpensExactly5 | socks.go:131-262 | both together, over every stream: the tunnel opens with given bytes unread if and only if the target can be asked for and the stream is a valid server's followed by exactly those bytes; user and password are offered if one is non-empty and sent if both fit |
| Socks.ProxyReadsRequest | socks.go:131-226 | what was sent decodes, by RFC 1928 and RFC 1929, to the offered methods, the credentials, target and port with nothing left over; the credentials if and only if user and password are both non-empty |
| Socks.EmptyPasswordIsSent | socks.go:153-168 | a handshake that goes through having sent a password of no octets |
| Socks.DialSOCKS4 | socks.go:316-391 | on any inbox the method sends, consumes and decides as the stream function says |
| Socks.DestinationIsMeant | socks.go:322-349 | a literal address goes as it is, an IPv6 one not at all, a name to the proxy with 4a and otherwise as the first IPv4 address the lookup gave |
| Socks.OnlyGrantsOpen4 | socks.go:366-391 | over every stream: the tunnel opens with given bytes unread if and only if the request can be made and the stream is a granting reply followed by exactly those bytes |
| Socks.Request4ReadsBack | socks.go:350-362 | the request decodes to user, destination and port if and only if no text field holds a zero byte and no literal address is a 4a marker |
| Socks.MarkerAddressIsNoRequest | socks.go:350-362 | with a user free of zero bytes, a request for a literal 0.0.0.x, x not zero, cannot be read at all |
| Socks.ZeroByteCutsUser | socks.go:350-362 | a user with a zero byte is cut there and the rest is left over |
| ProxyLine.KeyIsInjective | proxy.go:62-80 | equal keys, byte for byte, mean equal scheme, user, password and address, whatever bytes the credentials hold |
| ProxyLine.KeyIdentifiesProxy | proxy.go:62-80 | two lines with equal keys parse to the same proxy in every field |
| ProxyLine.ParsedIsSound | proxy.go:222-281 | what parses has a port in range, a bracket-free host, a known scheme, and no password for SOCKS4 |
| ProxyLine.BareLineParses | proxy.go:170-281 | for every host, port, user and password in the documented host:port:user:pass form: nothing if a scheme mark is anywhere in the line, otherwise every field, bracketed IPv6 hosts included, the password literally but for white space at its end |
| ProxyLine.BareLineRoundTrips | proxy.go:154-168 | so it gives every field back if and only if the line holds no scheme mark and the password does not end in white space |
| ProxyLine.PasswordWithSchemeMark | proxy.go:166-182 | a documented line that is rejected: 1.2.3.4:8080:user:a://b |
| ProxyLine.EscapedZero | proxy.go:209-219 | percent-decoding yields a zero byte |
| ProxyLine.UrlLineParses | proxy.go:177-281 | for every known scheme in any letter case and any text as user and password: the user ends at the first colon, the password at the last at-sign, each is decoded or taken as it stands, and kind, scheme, host, port and local resolution are those of the scheme, SOCKS4 dropping the password |
| ProxyLine.UrlLineRoundTrips | proxy.go:170-173 | printing any bytes percent-encoded as user and password, in either case, and parsing the line gives every part back |
| ProxyLine.ShortUrlLinesParse | proxy.go:154-160 | the same with a user alone, and without credentials |
| ProxyLine.PlainLineParses | proxy.go:156 | host:port is an HTTP proxy without credentials |
| ProxyLine.PlainAuthLineRoundTrips | proxy.go:192-208 | user:pass@host:port without a scheme round-trips too |
| ProxyLine.DecodesWhen | proxy.go:209-219 | a text decodes if and only if every percent sign in it starts an escape |
| ProxyLine.LiteralUnlessEscaped | proxy.go:209-219 | with none, or with a stray one, it is taken as it stands |
| ProxyLine.AtoiReads | proxy.go:231-237 | a port may be written with a sign; what does not fit 64 bits is no number |
| Scanners.HasJSONString | check.go:157-182 | true exactly when the text holds the key, after an even number of key occurrences chained by shared quotes, followed by colon and value with only white space between |
| Scanners.HasErrorEnvelope | check.go:191-220 | true exactly when such an errors key has a non-empty array |
| Scanners.ScanIsExactWhen | check.go:149-182 | the scan answers "is the field anywhere" wrongly if and only if the text holds it and only at keys after an odd chain |
| Scanners.VisitedIsEven | check.go:161-166 | of a chain of key occurrences, each sharing a quote with the next, the scan visits the first, third and so on, and no others |
| Scanners.MissedFieldSharesQuote | check.go:161-166 | a missed field shares its opening quote with a visited key |
| Scanners.ScanMissesSharedQuote | check.go:161-166 | a text with the field on which the scan says no |
| Scanners.Interpret | check.go:238-281 | taken beats available; a code other than 200 forbids a verdict; a populated error list forbids available only, so that a reply with one is a verdict if and only if something in it says taken; retryable exactly for throttling codes |
| Scanners.ErrorListCanBeTaken | check.go:251-267 | such a reply: it holds nothing but an error list and is read as taken |
| Console.TruncateVisible | console.go:117-172 | what shows is the first max characters that show of the input, no escape is cut in half, a fitting line is untouched, a cut line with escapes ends with a reset |
| Console.EscapesDoNotShow | console.go:130-160 | an escape is ESC [ up to a character from @ to ~, or ESC and another character; nothing of it shows, and what follows shows as if it were not there |

## Left out

- HTTP requests, transports, dialing, TLS, deadlines: replies are arbitrary values, and a SOCKS connection is two byte sequences whose writes succeed.
- File system detail: a write lands some prefix of the buffered characters, which may end inside a line, and may fail; a list file is replaced whole or not at all; temporary files, permissions and sync are not modelled. Nobody but the tool writes available.txt.
- `fileStamp` and the polling of `watchList`: they decide when `replace` is called, which is left free here.
- `claimer.go`, `resolve.go` but for `baseName`, `watchid.go`, `webhook.go`, `hook.go`, `update.go`, `version.go`, `proxycheck.go`, `canary.go`: network, process plumbing or display.
- Menus, flags, banner, status line and summary: user interface.
- Unicode case folding: lowering is ASCII. Invalid UTF-8 in the texts read (decoded credentials are bytes) and the scanner's line length limit are not modelled.
- Floating point rounding, round trips under a microsecond and 64-bit counter wrap: reals and unbounded integers instead, except for the range check of `strconv.Atoi`.
- Error texts and the reason attached to a result: results carry status, proxy and the unconfirmed flag.
- HitProtocol.NothingTheUserWantsIsLost: hits are names `validUsername` accepts, as the workers see to; list files hold no byte-order mark after their first character; `ListFile.RewriteKeepsNames` gives the exact condition for one rewrite.
- Resolution.CheckWithRetries: pools are any state satisfying the invariant `ProxyPool.EveryRunKeepsInv` proves of every run, with non-empty keys (a key always contains a bar); random jitter is any value in its range.
- Worklist.LiveCountIsExact: one direction over whole runs, because two miscounts can cancel; the step lemma `RetireIsExact` goes both ways.
- Wakeup: growth, cuts and ceiling moves are arbitrary moves of the cap; `Limiter` says which ones can occur.
