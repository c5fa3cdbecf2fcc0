# Verified model of the sample intake service

A service takes uploaded files, keeps each distinct content once under its SHA-256 digest, sealed on
disk, and hands out the work of analysing it as leased jobs. This project models the parts of it whose
correctness is not visible in any one function, and proves what they promise together:

* **The leased job queue.** `Lifecycle` is the transition table, `Jobs` the job record and its
  three mutating methods, `MemoryQueue` the dictionary-backed queue as a class over mutable job objects,
  `SqlQueue` the PostgreSQL queue run one call at a time, and `SqlSessions` the same queue as a step
  machine: any number of sessions, open transactions, row locks, `SKIP LOCKED`, statement snapshots with
  a re-check of the condition once a lock is held, rollbacks. `JobHistory` holds what is true of every
  history of a single job; `MemoryRuns` and `SqlSessions` show that every run of either queue changes
  each row only by such histories. `JobColumns` says what the value of every column tells about the history,
  `LeaseTimes` how long a lease protects a job in every run of either queue, `SqlAnswers` what the sessions
  tell their callers and get done. `SqlDeadlocks`, `SweepDeadlocks` and `AskDeadlocks` say which sessions can
  end up waiting for each other, and when; `SqlWaiting` how long a job can be kept waiting. `Worker` is the
  stub worker as the queue's client.
* **Content-addressed intake.** `Staging` is the bounded, hashing copy of an upload, `LocalStorage` the
  directory of sealed objects, `IntakeService` one submission from upload to answer, and `Intake` the
  step machine of any number of submissions interleaved with errors, cancellations, crashes and workers.
  `IntakeRuns` has the theorems over all its runs, `IntakeSteps` what may happen at each point, and
  `IntakeAnswers` what submitters are told, in one call, two, or any series of calls.
* **The sealed envelope.** `Gcm` is Galois/Counter Mode (NIST SP 800-38D, sections 6.2 to 6.5, 7.1 and
  7.2) over an arbitrary block cipher, one-shot and incremental, and `GcmLaws` says what each of its bytes is;
  `Utf8` is section 4 of RFC 3629; `Envelope` is the format, its parser and the streaming writer.
* **Type detection and rate limiting.** `FileTypes` has the detectors and the registry, `Detection` the exact
  headers on which each type is answered; `RateLimit` is the token bucket over real numbers and an arbitrary
  call history, and `RateLaws` says what it allows per instant and per minute.

Hash functions, the block cipher and multiplication in the field of GCM are parameters, so every theorem
holds of all of them. Absence of digest collisions is assumed only where a statement names `NoCollisions`,
and then only among the contents submitted in that run. Clock readings, random names and nonces, and
failures of the disk or the commit are parameters or nondeterministic moves.

Four properties a reader might expect are false of the code; each has a concrete input and the exact
condition under which the code has it:

* A claim need not take the oldest waiting row that is unlocked at that moment
  (`SqlSessions.AnOlderJobMayAppearDuringAScan`). An older waiting row is locked by another open transaction
  at that moment exactly if no move during the scan freed it for good: the insert of that row, or another
  session's release of its lock, by commit, rollback or error, with the row waiting, and no lock by another
  session since (`SqlSessions.PassedOverUnlockedExactlyWhenFreed`). For the two queues to hand out the same
  job, creation times must single out the first arrival (`SqlQueue.ClaimsAgreeExactlyWhen`).
* Sessions of the SQL queue can deadlock. In every run each session of a cycle of waits is sweeping or holds a
  lock that an illegal transition left behind (`SqlDeadlocks.DeadlocksNeedSweepsOrKeptLocks`), and either alone
  is enough (`SweepDeadlocks.ADeadlock`, `AskDeadlocks.ADeadlock`). Two sweeps can deadlock exactly if at least
  two rows are put back by both, or none is and at least two are given up by both
  (`SweepDeadlocks.TwoSweepsDeadlockExactlyWhen`). Two sessions that only start, renew, complete and fail can
  deadlock exactly if at least two jobs are held (`AskDeadlocks.TwoAskersDeadlockExactlyWhen`).
* The reported wait of the rate limiter is exact exactly for capacities of at least one
  (`RateLimit.WaitIsExactIffCapacity`). The settings demand a positive burst (`app/config.py:125-127`), so a
  smaller capacity takes a limiter constructed directly, with a burst of 0
  (`RateLimit.ABurstOfZeroIsNeverAdmitted`).
* The order of detectors is not free: one pair matters, on exactly the headers OOXML matches
  (`FileTypes.OrdersAgreeExactlyWhenOoxmlIsFirst`).

Where the code and its own words differ, the code is modelled:

* `fail` never looks at `attempts`, although `app/queue/base.py:134-135` speaks of exhaustion; the bound on
  attempts therefore counts the `fail` calls (`JobHistory.AttemptsAreBounded`).
* Ownership is checked by worker id alone. A lease that has run out but has not been swept still works, and
  a worker that claims a job again cannot be told from its earlier self (`JobHistory.OwnerIsTheLatestLessee`).
* An illegal transition in the SQL queue ends neither in a commit nor in a rollback, so the row stays
  locked (`SqlSessions.IllegalTransitionsKeepTheLock`).
* `enqueue` overwrites the status of whatever it is given (`MemoryRuns.EnqueueNeedsABlankRow` says when that
  is harmless).

## Model

| member | source | states |
|---|---|---|
| Lifecycle.RefusalsSayWhy | app/domain/lifecycle.py:69-102 | a move is allowed exactly along an edge, with an outcome exactly when finishing; each error has exactly its own cause, the terminal one exactly for states without exits |
| Lifecycle.EntriesOfTheTable | app/domain/lifecycle.py:31-47 | the table by the state entered: cancelled from every state but the two terminal ones, finished only from running, running only from claimed, claimed only from queued, queued from claimed and running; terminal exactly if there is no exit |
| Lifecycle.FinishingMeansHavingRun | app/domain/lifecycle.py:31-44 | every walk through the table from queued to finished ends queued, claimed, running, finished |
| Jobs.Job.constructor | app/domain/models.py:129-165 | a new job has the column defaults: queued, no attempts, no lease, no outcome, no times |
| Jobs.Job.TransitionTo | app/domain/models.py:197-232 | validation decides alone whether the move happens; a refused move leaves every field, an accepted one sets status, times, outcome, reason and lease as the target demands |
| Jobs.Job.GrantLease | app/domain/models.py:234-239 | owner, claim time and expiry are set from one clock reading, nothing else changes |
| Jobs.Job.ReleaseLease | app/domain/models.py:241-245 | the three lease fields are cleared, nothing else changes |
| Jobs.TransitionsKeepCoherence | app/domain/models.py:197-245 | an accepted transition keeps the row invariant (claimed or running iff leased, finished iff outcome, terminal iff finish time, start time by status); claiming does once the lease is granted |
| JobHistory.HistoriesAreCoherent | app/domain/models.py:197-245 | after every history of accepted changes from a new job the row invariant holds |
| JobHistory.AttemptsCountLeases | app/domain/models.py:155-157 | attempts is exactly the number of leases handed out |
| JobHistory.AttemptsAreBounded | app/queue/memory.py:102-130 | attempts never exceeds the limit plus the number of fail calls, and is below that while queued |
| JobHistory.EveryMoveMakesProgress | app/domain/lifecycle.py:38-44 | for every row one measure drops at every accepted change but a heartbeat, and stays at a heartbeat |
| JobHistory.JobsTerminate | app/queue/memory.py:55-130 | a job given back F times has at most 3 x (limit + F) changes besides heartbeats |
| JobHistory.OwnerIsTheLatestLessee | app/queue/memory.py:132-142 | the owner column names exactly the worker of the latest lease not ended by fail, completion or sweep; the status is running exactly if that worker started since |
| JobHistory.CompletionIsFenced | app/queue/memory.py:92-95 | complete is accepted iff the latest lease went to this worker, it started since, and nothing ended its tenure |
| JobHistory.OtherActionsAreFenced | app/queue/memory.py:75-100 | the same exact conditions for start, heartbeat and fail |
| JobHistory.TerminalRowsAreFinal | app/domain/lifecycle.py:46-47 | no accepted change leaves a finished or cancelled row |
| JobHistory.OneOutcomePerJob | app/domain/models.py:204-232 | at most one completion per job, last in its history, and its outcome is the one the row shows |
| JobHistory.LeasesAreSeparated | app/queue/memory.py:55-130 | two leases of a job have different attempt numbers, with a fail or a sweep between them |
| JobColumns.LeaseColumns | app/domain/models.py:234-245 | a held job shows the time of its latest claim or heartbeat and the end of the seconds it asked for; any other job shows neither |
| JobColumns.StartColumn | app/domain/models.py:204-232 | the start time is that of the latest start, as long as the job has not been given back since; none otherwise |
| JobColumns.FinishColumn | app/domain/models.py:204-232 | the finish time is that of the completion or the giving up, which is the last event; none otherwise |
| JobColumns.ReasonColumn | app/domain/models.py:204-232 | the failure reason is that of the latest fail or sweep: its text, the expiry, or the limit run into |
| JobColumns.SweptExactlyWhenDue | app/queue/memory.py:111-118 | a sweep may take a job iff it is held and the seconds of its latest claim or heartbeat are over |
| JobColumns.RefusalsNameTheCause | app/queue/memory.py:132-142 | start, heartbeat, complete and fail are refused to everybody but the holder, and to the holder exactly where the state forbids them; each refusal says which |
| JobColumns.TransitionColumns | app/domain/models.py:204-232 | check on the model: every column after a transition, for every row and target, and which are left alone |
| MemoryQueue.InMemoryJobQueue.constructor | app/queue/memory.py:31-34 | an empty queue |
| MemoryQueue.InMemoryJobQueue.Enqueue | app/queue/memory.py:36-53 | the job is stored as queued at the end of the order, or in its old place if the id is known |
| MemoryQueue.InMemoryJobQueue.Claim | app/queue/memory.py:55-73 | the first waiting job in arrival order, and no other, is leased and counted; None exactly if nobody waits |
| MemoryQueue.InMemoryJobQueue.Owned | app/queue/memory.py:132-142 | found iff the id is known and held by this worker; otherwise unknown job, or lease lost with the holder |
| MemoryQueue.InMemoryJobQueue.Start | app/queue/memory.py:75-77 | the held job starts, or the refusal is returned and nothing changes |
| MemoryQueue.InMemoryJobQueue.Heartbeat | app/queue/memory.py:79-90 | the lease of the held job runs anew from now, whether or not it had lapsed, and the lease returned is the row's (`LeaseTimes.RenewalsShowInRows`) |
| MemoryQueue.InMemoryJobQueue.Complete | app/queue/memory.py:92-95 | the held running job finishes with the outcome, or refusal and no change |
| MemoryQueue.InMemoryJobQueue.Fail | app/queue/memory.py:97-100 | the held job goes back with the reason whatever its attempts, or refusal and no change |
| MemoryQueue.InMemoryJobQueue.ReapExpired | app/queue/memory.py:102-130 | every expired held job, and no other, is put back or given up by its attempts; the two lists name them in arrival order |
| MemoryQueue.ReapedIdsAreExact | app/queue/memory.py:114-128 | a job is reported requeued, or abandoned, iff it was expired and below, or not below, the limit |
| MemoryQueue.FirstQueuedIsFirst | app/queue/memory.py:57-60 | the job a claim finds is the one that waits with nobody waiting before it |
| MemoryQueue.ReapedIdsAreInOrder | app/queue/memory.py:114-130 | both lists of a sweep name jobs in arrival order, each once |
| MemoryQueue.EnqueuePlaces | app/queue/memory.py:36-53 | check on the model: a new id goes behind all others, a known one keeps its place, and the row is the given one, waiting |
| MemoryRuns.RunsAreFaithful | app/queue/memory.py:28-142 | in every run, every row is what the accepted changes of its job make of a new job |
| MemoryRuns.LegalExactlyWhen | app/queue/memory.py:36-53 | check on the model: the runs spoken of are exactly those that enqueue no id twice |
| MemoryRuns.ReachableRowsAreCoherent | app/domain/models.py:197-245 | the row invariant in every reachable state of the in-memory queue |
| MemoryRuns.EnqueueNeedsABlankRow | app/queue/memory.py:48 | enqueueing a row gives a coherent one exactly when nothing but its status was filled in |
| MemoryRuns.RunsAreFenced | app/queue/memory.py:92-95 | fencing of complete over whole runs, as an equivalence |
| MemoryRuns.AttemptsAreGrants | app/queue/memory.py:62 | conservation: the attempts of all jobs add up to the successful claims of the run |
| MemoryRuns.RunsServeInOrder | app/queue/memory.py:57-60 | first leases are issued in arrival order, in every run |
| MemoryRuns.WaitingIsBounded | app/queue/memory.py:50-73 | while the job at position p has had no lease, at most p x limit leases were handed out, plus one per fail of an earlier job |
| LeaseTimes.ClaimsShowInRows | app/queue/memory.py:62-71 | a claim returns the worker, expiry and attempt that the row then shows, changes no other row, and returns nothing exactly if nobody waits |
| LeaseTimes.RenewalsShowInRows | app/queue/memory.py:79-90 | in every run a heartbeat of the holder, and of nobody else, returns a lease from now on, and the row shows that lease |
| LeaseTimes.AskersAreTold | app/queue/memory.py:132-142 | which answer a caller of start, heartbeat, complete or fail gets, as equivalences |
| LeaseTimes.SweepsTakeExactlyTheDue | app/queue/memory.py:102-130 | in every run a sweep puts back, or gives up, exactly the held jobs whose latest claim or heartbeat has run out |
| LeaseTimes.RenewedJobsAreLeftAlone | app/queue/memory.py:79-118 | in every run a job renewed at t for some seconds is taken by a sweep at now iff they are over by now |
| Worker.StubWorker.HandOff | worker/runner.py:77-91 | a refused start is answered by giving the job back with the text of the error; which error reaches the caller |
| Worker.StubWorker.ProcessOne | worker/runner.py:65-91 | alone, it leaves the first waiting job leased and running and returns that lease, or finds nothing |
| Worker.ProcessedShowsInRows | worker/runner.py:65-91 | what it returns is what the row shows: the first waiting job, leased from now, started now, counted |
| Worker.AbandonedWorkDrains | worker/runner.py:65-91 | after k rounds of taking everything, letting leases lapse and sweeping, every job is queued with k attempts, or cancelled with exactly the limit and no outcome or lease; none lost or added |
| SqlQueue.BulkUpdatesAreTransitions | app/queue/database.py:87-99 | the column lists of the three bulk updates write what transition_to and grant_lease would |
| SqlQueue.TwoStatementsAreOneSweep | app/queue/database.py:171-208 | requeue update then abandon update treats every row as one pass over it would; no row is hit twice |
| SqlQueue.DatabaseJobQueue.Enqueue | app/queue/database.py:41-49 | joins the caller's transaction as queued; nothing is committed |
| SqlQueue.DatabaseJobQueue.Claim | app/queue/database.py:51-117 | one oldest waiting row is leased and committed, or a rollback and None |
| SqlQueue.DatabaseJobQueue.Lock | app/queue/database.py:219-249 | the row under its lock iff held by this worker; either refusal ends the transaction |
| SqlQueue.DatabaseJobQueue.Perform | app/queue/database.py:119-157 | start, heartbeat, complete and fail as lock, act, commit, with the in-memory queue's answers and rows (`SqlQueue.CallsAgree`); the row stays locked exactly when the transition was illegal |
| SqlQueue.DatabaseJobQueue.ReapExpired | app/queue/database.py:159-217 | both statements in one commit, with exactly the rows each one hit |
| SqlQueue.CallsAgree | app/queue/database.py:51-217 | from agreeing states with creation times in arrival order, every outcome the SQL queue may have is the in-memory queue's |
| SqlQueue.SomeCommitExists | app/queue/database.py:51-217 | in every state each call has an outcome, so agreement is never vacuous |
| SqlQueue.RunsAgree | app/queue/database.py:51-217 | over whole runs all fields of all jobs, leases, errors and sweep results agree |
| SqlQueue.InCreationOrderExactlyWhen | app/domain/models.py:162-165 | the runs compared are exactly those that enqueue no id twice and give each job a later creation time than those before it |
| SqlQueue.ClaimsAgreeExactlyWhen | app/queue/database.py:78-85 | claims agree iff the first waiting job is the only oldest one |
| SqlSessions.MovesKeepInv | app/queue/database.py:51-249 | every move of every session keeps: rows follow their histories, uncommitted writes are locked and one accepted change ahead, leases stand in the histories |
| SqlSessions.TracesAreSound | app/queue/database.py:51-249 | so they hold in every interleaving |
| SqlSessions.CommittedRowsAreHistories | app/queue/database.py:51-249 | coherence, attempt counting, one outcome and fencing for every committed row |
| SqlSessions.LeasesNeverCollide | app/queue/database.py:62-70 | no two leases ever returned share job and attempt, and a second one only after a committed fail or sweep |
| SqlSessions.ScansExplainThemselves | app/queue/database.py:78-85 | each row a claim's scan has passed was, at the probe that stepped over it, locked by another transaction or no longer waiting |
| SqlSessions.ClaimsTakeTheOldestTheyCan | app/queue/database.py:78-105 | the row taken is waiting when locked, and every older row of the snapshot was locked by another or no longer waiting at the probe that stepped over it |
| SqlSessions.UninterruptedClaims | app/queue/database.py:78-105 | the special case that nobody else moves during the scan: every older waiting row is locked by another at that moment |
| SqlSessions.AnOlderJobMayAppearDuringAScan | app/queue/database.py:78-105 | a run in which an older, unlocked, waiting row is passed over |
| SqlSessions.FreeingMoves | app/queue/database.py:78-85 | during a scan exactly these moves make a row free, and exactly a lock by another session ends that |
| SqlSessions.PassedOverUnlockedExactlyWhenFreed | app/queue/database.py:78-105 | in any interleaving an older waiting row is locked by another when the claim takes its row, iff no move during the scan freed it without a lock by another since |
| SqlSessions.ClaimsNeverWait | app/queue/database.py:62-66 | in every state a scanning claim can move, and each move shortens the scan or ends it |
| SqlSessions.IllegalTransitionsKeepTheLock | app/queue/database.py:119-123 | after an illegal transition others find the row locked until the session ends its transaction |
| SqlSessions.CommitsAreAtomic | app/queue/database.py:101-107 | each commit changes the rows as its call would if it ran at that instant |
| SqlSessions.SoloClaimsTakeTheOldest | app/queue/database.py:78-99 | alone, the machine's claim takes a row that the sequential claim may take |
| SqlSessions.SoloSweepsMissNothing | app/queue/database.py:176-210 | alone, a sweep visiting its rows in any order commits what the sequential sweep does |
| LeaseTimes.StatementsFindExactlyTheDue | app/queue/database.py:171-208 | in every interleaving the two statements of a sweep find exactly the held jobs whose latest committed claim or heartbeat has run out, by their attempts |
| LeaseTimes.CommittedSweepsAreOfTheDue | app/queue/database.py:171-217 | in every interleaving whatever a sweep is about to commit is still due at that moment |
| LeaseTimes.ClaimsReturnWhatTheyCommit | app/queue/database.py:94-117 | a claim commits one lease of a waiting job, and the committed row shows the worker, expiry and attempt returned |
| SqlAnswers.UntouchedJobsAreSweptExactlyWhenExpired | app/queue/database.py:159-217 | whatever others do during a sweep, it takes back a job that nobody else changed iff that job was held and expired; below the limit it waits again, at the limit it is cancelled |
| SqlAnswers.NothingFoundExactlyWhen | app/queue/database.py:101-105 | in any interleaving, when a claim returns None a waiting job is locked by another session, iff no move during the scan freed it without a lock by another since |
| SqlAnswers.AsksAnswerTruly | app/queue/database.py:119-157 | in any interleaving start, heartbeat, complete and fail answer unknown only if the job was when they began, and otherwise act on, or are refused by, the row committed at that moment, under its lock |
| SqlAnswers.UncontestedAsksAreDone | app/queue/database.py:119-157 | left alone they do to the committed row what the call should, and keep the lock exactly after an illegal transition |
| SqlAnswers.OnlyLocksHoldCallsUp | app/queue/database.py:51-249 | in every sound state a session in a call has a next step, unless what it asks for or has still to sweep is locked by others |
| SqlAnswers.EndsLeaveNoLocks | app/queue/database.py:101-107 | after a commit, a rollback or an empty answer the session has no lock, and every other lock is as it was |
| SqlAnswers.AnyCallMayBegin | app/queue/database.py:51-249 | check on the model: an idle session can begin any call, and any call can be broken off |
| SqlAnswers.AttemptsAreIssued | app/queue/database.py:94-117 | conservation in every interleaving: the attempts of a job are exactly the leases of it returned so far |
| SqlSessions.ConcurrentJobsTerminate | app/queue/database.py:51-217 | the bounds on attempts and changes in every interleaving |
| SqlDeadlocks.TracesKeepLocks | app/queue/database.py:119-157 | whatever a session has locked outside its call is there because of an illegal transition since its last transaction ended |
| SqlDeadlocks.DeadlocksNeedSweepsOrKeptLocks | app/queue/database.py:119-249 | in every run from an unlocked state each session of a cycle of waits is sweeping, or was made to keep, by an illegal transition, the very lock that the session before it waits for |
| SqlDeadlocks.OneSweepCannotDeadlock | app/queue/database.py:159-217 | without illegal transitions a cycle consists of sweeps, each waiting for a different one |
| SweepDeadlocks.SweepsOnContendedRowsOnly | app/queue/database.py:171-208 | two sweeps with one attempt limit, each with its own clock reading, get into a cycle of waits only if two rows are put back by both, or none is and two are given up by both |
| SweepDeadlocks.SweepsMayDeadlock | app/queue/database.py:171-208 | and on such rows they can block each other for good, however many rows either finds, in either statement |
| SweepDeadlocks.TwoSweepsDeadlockExactlyWhen | app/queue/database.py:171-208 | so that condition on the rows is exact |
| SweepDeadlocks.ADeadlock | app/queue/database.py:51-217 | a run from the empty database, with no illegal transition in it, into a deadlock of two sweeps |
| AskDeadlocks.CyclesNeedOwnedJobs | app/queue/database.py:119-157 | two sessions that start, renew, complete and fail, rollbacks included, get into a cycle of waits only if two jobs are held |
| AskDeadlocks.KeptLocksMayDeadlock | app/queue/database.py:119-157 | any two held jobs are enough: each session keeps one locked after an illegal transition and asks for the other |
| AskDeadlocks.TwoAskersDeadlockExactlyWhen | app/queue/database.py:119-157 | so that condition is exact |
| AskDeadlocks.ADeadlock | app/queue/database.py:51-157 | a run from the empty database, with no sweep in it, into such a deadlock |
| SqlWaiting.CountIsBoundedBySum | app/queue/database.py:94-97 | the leases returned for any jobs are no more than the attempts of those jobs |
| SqlWaiting.WaitingIsBoundedInAnyInterleaving | app/queue/database.py:78-117 | while a job waits and no transaction locks its row, the leases returned are at most the attempt limit for each job at least as old, less those it had before, one per fail of such a job, and one per claim under way at the start |
| Utf8.CutText | app/filetypes/detectors.py:208-214 | cutting UTF-8 text anywhere leaves well-formed text after dropping at most three bytes |
| Utf8.DecodesExactlyTheValid | app/filetypes/detectors.py:217-222 | strict decoding succeeds exactly on well-formed strings |
| Utf8.DecodeEncode | app/storage/encryption.py:78 | decoding undoes encoding |
| Utf8.EncodeDecode | app/storage/encryption.py:163-166 | encoding undoes decoding |
| Utf8.EncodedCharIs | app/storage/encryption.py:78 | the table of RFC 3629: one to four bytes by the value of the character, whose bits they carry |
| FileTypes.ShorterWindowsKeepPE | app/filetypes/detectors.py:36-47 | an executable stays one in every window of at least two bytes |
| FileTypes.DetectIsFirstYes | app/filetypes/registry.py:41-51 | the answer is that of the first detector that says yes, unknown if none does |
| FileTypes.RaisingIsSkipped | app/filetypes/registry.py:45-49 | a detector that raises might as well not be registered |
| FileTypes.TextWindowsAreText | app/filetypes/detectors.py:200-214 | every window of a NUL-free UTF-8 file passes as text |
| FileTypes.TextIsAlmostValid | app/filetypes/detectors.py:212-214 | what passes as text is, but for at most three last bytes, well-formed UTF-8 without NUL, negative slices included |
| FileTypes.ThreeDroppedBytesAreNeeded | app/filetypes/detectors.py:214 | with two dropped bytes some window of some text would be refused |
| FileTypes.DetectorsAreDisjoint | app/filetypes/detectors.py:26-222 | no header matches two default detectors but OOXML and archive |
| FileTypes.OoxmlIsArchive | app/filetypes/detectors.py:135-158 | whatever OOXML matches, archive matches |
| FileTypes.OrderMattersForOnePair | app/filetypes/detectors.py:225-237 | a permutation with OOXML before archive answers as the default on every header; otherwise it differs exactly on the headers OOXML matches |
| FileTypes.OrdersAgreeExactlyWhenOoxmlIsFirst | app/filetypes/detectors.py:225-237 | a permutation agrees on all headers iff it keeps OOXML before archive |
| Detection.PEIsDetected | app/filetypes/detectors.py:26-49 | PE iff it begins with MZ and, where the offset at 60 and its target are in view, PE and two zero bytes are there |
| Detection.ELFIsDetected | app/filetypes/detectors.py:58-61 | ELF iff 0x7F and then ELF |
| Detection.MachOIsDetected | app/filetypes/detectors.py:75-84 | Mach-O iff one of the five four-byte magics |
| Detection.OLEIsDetected | app/filetypes/detectors.py:97-100 | OLE iff the eight-byte magic |
| Detection.PDFIsDetected | app/filetypes/detectors.py:108-111 | PDF iff it begins with %PDF- |
| Detection.OOXMLIsDetected | app/filetypes/detectors.py:132-136 | OOXML iff PK, 3, 4 and somewhere [Content_Types].xml |
| Detection.ArchiveIsDetected | app/filetypes/detectors.py:148-159 | archive iff one of the seven signatures and not OOXML |
| Detection.ScriptIsDetected | app/filetypes/detectors.py:178-222 | script iff a shebang, or text without NUL, in UTF-8 but for at most three last bytes, in which one of the eight markers in any case follows the leading blanks |
| Gcm.GctrCancels | app/storage/encryption.py:142 | counter mode applied twice is the identity |
| Gcm.DecryptEncrypt | app/storage/encryption.py:142 | authenticated decryption undoes authenticated encryption |
| Gcm.Encryptor.constructor | app/storage/encryption.py:111-112 | the incremental state for a key, nonce and additional data, nothing fed |
| Gcm.Encryptor.Update | app/storage/encryption.py:116-117 | whatever has been fed in whatever pieces, the output so far is counter mode of all of it |
| Gcm.Encryptor.Finalize | app/storage/encryption.py:118-122 | output and tag together are the one-shot result for everything fed, whose bytes `GcmLaws` gives |
| GcmLaws.XorIsOfWords | app/storage/encryption.py:70 | the exclusive or of two bytes is that of eight-bit words |
| GcmLaws.CiphertextBytes | app/storage/encryption.py:70 | byte i of the ciphertext is that of the plaintext combined with byte i mod 16 of the cipher of the nonce followed by 2 + i/16, modulo 2^32, in four bytes (SP 800-38D, sections 6.5 and 7.1) |
| GcmLaws.TagBytes | app/storage/encryption.py:70 | the tag is the fold, under the cipher of the zero block, of the zero-filled blocks of the header, then of the ciphertext, then both lengths in bits, combined with the cipher of the nonce followed by 1 (sections 6.4 and 7.1) |
| Envelope.SplitIsExact | app/storage/encryption.py:149-168 | splitting succeeds exactly on magic, full header and nonce, and a UTF-8 key id |
| Envelope.PiecesMakeTheWhole | app/storage/encryption.py:161-168 | the pieces concatenate to the input, and the header is that of the key id |
| Envelope.SplitAssembled | app/storage/encryption.py:149-168 | splitting undoes assembling |
| Envelope.HeadersArePrefixFree | app/storage/encryption.py:82-84 | two headers that begin the same string are the same |
| Envelope.EnvelopesShowKeyIdAndNonce | app/storage/encryption.py:67-88 | envelopes of different key ids or nonces are never equal |
| Envelope.UnsealSeal | app/storage/encryption.py:133-146 | what was sealed is unsealed by every keyring holding its key, and names its key |
| Envelope.OnlyEnvelopesUnseal | app/storage/encryption.py:133-146 | what unseals is the envelope of what came out |
| Envelope.LargerKeyringsAgree | app/storage/encryption.py:137-139 | adding keys changes no answer but an unknown key id |
| Envelope.SealedBytes | app/storage/encryption.py:67-88 | the format byte by byte: UPA1, length and bytes of the key id, nonce, ciphertext and tag under everything before the nonce; refused iff the key is not 32 bytes, or else the key id is not 1 to 255 |
| Envelope.AnswersNameTheCause | app/storage/encryption.py:133-168 | each refusal of unsealing, and the plaintext, as an equivalence with what is wrong with the bytes, the keyring or the tag |
| Envelope.Source.Read | app/storage/encryption.py:116 | successive reads deliver the content in order |
| Envelope.SealStream | app/storage/encryption.py:91-124 | for every chunk size the bytes written are those of the one-shot envelope; on a bad key or key id nothing is written |
| RateLimit.TokenBucketRateLimiter.constructor | app/security/ratelimit.py:62-69 | capacity and rate from the arguments, no buckets |
| RateLimit.TokenBucketRateLimiter.Configured | app/security/ratelimit.py:62-64 | refused iff the rate is not positive; otherwise capacity and rate come from the arguments and there are no buckets |
| RateLimit.TokenBucketRateLimiter.Refill | app/security/ratelimit.py:86-103 | exactly this key's bucket is topped up to now, or created full |
| RateLimit.TokenBucketRateLimiter.Allow | app/security/ratelimit.py:71-77 | admitted iff one token is there after refilling, and then exactly one is taken |
| RateLimit.TokenBucketRateLimiter.RetryAfter | app/security/ratelimit.py:79-84 | the time until one token, with no token taken |
| RateLimit.LevelIsLeastWindow | app/security/ratelimit.py:71-103 | closed form: the level is the least, over all earlier requests and now, of capacity plus refill since minus admissions since |
| RateLimit.AdmittedExactlyWithinAllWindows | app/security/ratelimit.py:71-103 | admitted iff with it every window ending now stays within capacity plus rate times length |
| RateLimit.RefillsCompose | app/security/ratelimit.py:100-102 | refilling in two steps is refilling once |
| RateLimit.WaitIsEnough | app/security/ratelimit.py:79-84 | with a capacity of at least one, a later request is admitted iff the reported wait has passed |
| RateLimit.WaitIsExactIffCapacity | app/security/ratelimit.py:79-84 | the report is exact for every delay iff the capacity is at least one |
| RateLimit.ABurstOfZeroIsNeverAdmitted | app/security/ratelimit.py:62-84 | with a burst of 0 and 120 requests a minute, a wait of half a second is reported and no delay is enough |
| RateLimit.RetryHeaderSuffices | app/security/auth.py:114-126 | the rounded header value is always long enough |
| RateLimit.OnlyOwnRequestsCount | app/security/ratelimit.py:71-103 | in any history the level a key finds depends on its own requests only; polls and other keys change no decision |
| RateLimit.ReportedWaitsAreExact | app/security/ratelimit.py:79-84 | in any history, unless the key is admitted in between, a request is admitted iff the wait reported by an earlier poll has passed |
| RateLaws.BurstsAreAdmittedExactly | app/security/ratelimit.py:62-77 | a new key asking at one instant is admitted exactly burst times, or the rate per minute where no burst is given, whatever others do |
| RateLaws.MinutesAreBounded | app/security/ratelimit.py:62-103 | in m minutes at most the burst and m times the rate per minute are admitted |
| RateLaws.SpacedRequestsAreNeverRefused | app/security/ratelimit.py:71-103 | with a capacity of at least one, requests 60 seconds divided by the rate apart are never refused |
| RateLaws.HeadersAreTheNextSecond | app/security/auth.py:125 | the header is the least whole number of seconds above the wait, and at least one |
| Staging.AbsorbJoins | app/domain/hashing.py:45-50 | feeding two pieces is feeding their concatenation |
| Staging.AbsorbsByteByByte | app/domain/hashing.py:45-50 | every byte is one step of the hash, in order, and nothing else is |
| Staging.StreamHasher.Update | app/domain/hashing.py:45-50 | all three digests and the count stay those of everything fed |
| Staging.StreamHasher.Result | app/domain/hashing.py:52-66 | the digests of everything fed are those of hashing it at once |
| Staging.Stage | app/services/intake.py:94-128 | however an upload is cut, the result is its content, digests, size and first 512 bytes, or the right error with the file gone; the file never holds more than the limit; when the disk fills up the error is that or the limit, whichever the cut meets first |
| Staging.AnswersNameTheCause | app/services/intake.py:94-128 | each answer as an equivalence with its cause; an accepted upload comes with the digests and length of its content and its first 512 bytes |
| LocalStorage.PathsAreDistinct | app/storage/local.py:37-42 | different keys never share a file |
| LocalStorage.PartialsAreUnderNoKey | app/storage/local.py:62-64 | a partial file is at the path of no key but, for keys of four or more characters, its own name |
| LocalStorage.DigestsAreNotPartialNames | app/storage/local.py:62-64 | no key without a dot is such a name |
| LocalStorage.KeysFanOut | app/storage/local.py:37-42 | two directories of two characters each, then the key; short keys lie in the root |
| LocalStorage.LocalFileSystemStorage.Open | app/storage/local.py:27-35 | refused iff the active key id is not in the keyring |
| LocalStorage.LocalFileSystemStorage.PutSync | app/storage/local.py:48-77 | for every way the disk fails: what is under the key, which error, that the partial file is gone and that no other file changed |
| LocalStorage.PutsNameTheCause | app/storage/local.py:48-96 | each way a put ends as an equivalence with its cause; what the file system holds after it, file by file |
| LocalStorage.LocalFileSystemStorage.Promote | app/storage/local.py:79-96 | a refused rename is an error only if nothing is at the destination, and then loses nothing |
| LocalStorage.LocalFileSystemStorage.GetSync | app/storage/local.py:102-106 | the plaintext, or not found, or why it cannot be unsealed |
| LocalStorage.LocalFileSystemStorage.Exists | app/storage/local.py:108-109 | true iff getting would not say not found |
| LocalStorage.LocalFileSystemStorage.SizeOf | app/storage/local.py:111-118 | the length of the plaintext |
| LocalStorage.LocalFileSystemStorage.DeleteSync | app/storage/local.py:120-124 | the object is gone, every other file stays, an absent key is no error |
| LocalStorage.GetAfterPut | app/storage/local.py:48-106 | what was put is got |
| LocalStorage.PutAgainIsHarmless | app/storage/local.py:83-96 | putting the same content again, with any failure or lost race, keeps the key reading as that content |
| LocalStorage.PutTouchesOneKey | app/storage/local.py:48-77 | a put changes what is read under no other digest |
| IntakeService.IntakeService.Submit | app/services/intake.py:83-92 | a staging error changes nothing and is the answer; otherwise answer and books are those of recording the content; the staging file is gone in every case |
| IntakeService.IntakeService.Record | app/services/intake.py:130-208 | the answer is exactly determined: why the put failed, that the commit failed, or the result with the row's type and duplicate iff the row was there; on success one job, one row per digest, and an object under the digest, readable unless an unreadable one was there before; an existing object is not rewritten; on any error the tables are unchanged and other digests read as before |
| IntakeService.AcceptedExactlyWhen | app/services/intake.py:146-192 | a staged submission is accepted iff its commit goes through and its object is there already or, with a usable key, is put without a failure |
| IntakeAnswers.AcceptedAnswers | app/services/intake.py:130-208 | an accepted submission reports duplicate iff its digest had a row, iff no row was added; the hashes of its content; the row's type, else what its first 512 bytes show; the one new job, which refers to its digest; its object is there |
| IntakeAnswers.RefusedAnswers | app/services/intake.py:146-191 | accepted, or not committed, each exactly when; a refusal changes no table |
| IntakeAnswers.UnstoredAnswers | app/services/intake.py:146-147 | a put is tried only where no object is, and its failure is the disk's or the key's, each exactly when |
| IntakeAnswers.SubmittedAnswers | app/services/intake.py:83-128 | what is accepted was read to its end, is not empty, and keeps to the limit |
| IntakeAnswers.SubmittedAgain | app/services/intake.py:134-141 | the same content again, with anything in between, is a duplicate of the same type and hashes under another job, and adds no row |
| IntakeAnswers.DuplicatesFollowTheFirst | app/services/intake.py:130-208 | in any series of submissions one is reported as duplicate iff an earlier one was accepted with its digest, and then with the same type |
| Intake.DeedsShowOnly | app/storage/local.py:66-96 | after any step of a submission a digest reads as before, or as that submission's content if that is its digest |
| Intake.MovesKeepInv | app/services/intake.py:130-206 | every move keeps: objects complete and true to their digest, partial files a prefix of their envelope, stored before inserted, one uncommitted row per digest, rows and jobs exactly those of the accepted submissions |
| Intake.OwnObjectsAreReadable | app/storage/local.py:79-96 | whoever goes on past storing, also after losing the race, finds the object readable |
| IntakeRuns.RunsAreSound | app/services/intake.py:130-206 | so they hold in every interleaving from an empty store |
| IntakeRuns.NothingHalfWrittenIsRead | app/storage/local.py:52-64 | under every digest there is nothing or bytes with that digest; partial files and crashes never show |
| IntakeRuns.CommittedJobsAreBacked | app/services/intake.py:179-192 | every committed job has its sample row and an object that unseals to bytes with its digest |
| IntakeRuns.JobsAreAcceptedSubmissions | app/services/intake.py:172-192 | committed jobs and accepted submissions correspond one to one, each about that submission's digest |
| IntakeRuns.OneSubmissionInsertsEachRow | app/services/intake.py:149-170 | of any number of racing submissions exactly one, the first to commit, inserts the row, with the type it detected |
| IntakeRuns.TypesAreCoherent | app/services/intake.py:137-141 | without collisions every accepted submission reports the row's type, which is detection on its own first 512 bytes, and its object is its content |
| IntakeRuns.DuplicatesWereCommittedEarlier | app/services/intake.py:134-135 | without collisions duplicate is reported iff another submission had committed the same bytes before the lookup |
| IntakeRuns.MovesKeepPlaintext | app/storage/local.py:79-96 | without collisions no move, a lost race included, changes a plaintext that could be read |
| IntakeRuns.PlaintextIsStable | app/storage/local.py:79-96 | so it reads the same for the rest of the run |
| IntakeRuns.AbortsChangeNothing | app/services/intake.py:179-191 | errors, cancellations and crashes leave the tables, and every digest reads as before |
| IntakeRuns.SubmissionsNeverStick | app/services/intake.py:156-158 | in every sound state a submission can go on, or waits to insert its row for one that can |
| IntakeRuns.LeftAloneIsAccepted | app/services/intake.py:130-208 | left alone, a submission is accepted after at most eight more steps, and recorded as IntakeService.Record does |
| IntakeAnswers.LeftAloneIsAnswered | app/services/intake.py:130-208 | a submission of the step machine that is left alone ends with the job, type and duplicate flag that the one call answers |
| IntakeSteps.LostRacesGoOn | app/storage/local.py:79-96 | after a rename, refused or not, the submission goes on iff it is still wanted and an object is there; its partial file is gone |
| IntakeSteps.OnlyCrashesLeavePartials | app/storage/local.py:66-77 | of all that can happen to a put only a crash leaves the partial file |
| IntakeSteps.StoredObjectsAreAdopted | app/services/intake.py:143-147 | an object that can be found is not written again, and one that cannot is |
| IntakeSteps.AnythingMayGoWrong | app/services/intake.py:130-208 | check on the model: every live submission can fail or crash at any point, and be cancelled exactly while it stores |
| FileTypes.RefusedExecutables | app/filetypes/detectors.py:32-49 | check on the model: an MZ header is refused iff the four offset bytes, read low byte first, and the signature they lead to are in view and the signature is wrong |
| SqlSessions.OnlyCommitsAreVisible | app/db/session.py:20-26 | check on the model: no move but a commit, or the intake's insert, changes a committed row |
| MemoryRuns.RefusedCallsChangeNothing | app/queue/memory.py:132-142 | check on the model: a call that is turned away, and a claim that finds nothing, changes no field of any job |

## Left out

- Clock: every call reads the clock once; the in-memory sweep and claim read it again for each job they change.
- Floating point in the rate limiter; the clock is non-decreasing and arithmetic exact. Each process has its own buckets in the original, one is modelled.
- AES, multiplication in the field of GCM, SHA-256, SHA-1 and MD5 are arbitrary functions; nothing is proved about secrecy or tampering.
- Size limits of the cryptography library (2^31 - 1 bytes one-shot, 2^36 - 32 bytes of GCM) and lone surrogates in key ids, which the original rejects.
- Key ids and keyrings: base64 decoding and key generation.
- SqlSessions.MovesKeepInv: deadlock detection, statement timeouts and lost connections of PostgreSQL appear only as an abort that may happen at any time; the object cache of the database layer is taken to return the locked row.
- Column widths: 32-bit attempts, 512-character failure reasons and filenames; the wording of the two reasons a sweep records.
- SweepDeadlocks.TwoSweepsDeadlockExactlyWhen: two sweeps, and nobody else moving; the attempt limit is the same for both, as the settings make it.
- SqlDeadlocks.DeadlocksNeedSweepsOrKeptLocks: a sweep may visit its rows in any order, and is taken to wait for every locked row it has still to visit, where PostgreSQL waits for one at a time.
- Columns no property depends on: filename, provenance versions, first_seen_at, updated indexes and the relationship loading of a job's sample.
- LocalStorage.LocalFileSystemStorage.PutSync: keys are single path components (digests); creation of directories, links, permissions and flushing to disk are not modelled, a rename is atomic or leaves everything as it was.
- Intake.MovesKeepInv: job ids and random suffixes are not handed out twice at a time, and nothing deletes objects (no caller of delete exists in the service).
- IntakeRuns.TypesAreCoherent: assumes that no two contents submitted in the run share a digest; two that do may be recorded under one row with the type of the first.
- IntakeService.IntakeService.Record: the refresh of the job after the commit, and a commit whose outcome the client never learns.
- The polling loop of the worker, the reaper's timer, operator cancellation (legal in the table, performed by no code), HTTP routes, authentication, audit rows, logging, migrations and settings.
