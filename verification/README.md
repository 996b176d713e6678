# VoltMod, verified

A Dafny model of the engine-free, stateful parts of VoltMod, and proofs of what they keep over whole runs.
`dafny verify dfyconfig.toml` checks all of it.

Where the source changes state, a component comes in two files. One holds the state as a value, the steps as
functions on it, and the theorems over every run. The other holds the class or the method with the source's own
branches and loops; each of its methods is proved to be the step of the same name. Steps that are not enabled
leave the state alone, so every sequence of steps is a run.

| component | files |
|---|---|
| HTTP worker pool, as steps of an interleaving | HttpPool, HttpClient |
| screen write cache, against sending every write | ScreenWrites, ScreenEntity |
| database worker, its queue and its stop protocol | DatabaseWorker, DatabaseClient |
| migration placeholders: scanner against regular expression | Placeholders, Dialects |
| migration statements: one pass against two | Statements, StatementSplitter, StatementForm |
| migration runner over a database with faults | MigrationRuns, MigrationRunner |
| player roster under re-entrant handlers | Roster, RosterRuns, PlayerManager |
| debounced menu commits | PendingCommits, CommitFates, MenuStacks, MenuStack |
| held commits that call back | CommitTrees, ReentrantCommit |
| client convar queries | ConVarQueries, ClientConVars |
| command line: tokens, targets, argument binding, the erased call | CommandSyntax, Targeting, CommandBinding |
| decimal numbers, for the binder and the migration names | Decimals |
| yes/no vote under re-entrant callbacks | Ballots, Vote |
| menu cursor | MenuCursor |
| transmit filter | Visibility |

## Where the code and its documentation part

The model follows the code. Each of these is a lemma, with the exact condition where there is one.

- `HttpClient::Stop` is documented as final. A completion that calls it from inside a delivery batch is followed
  by the rest of that batch, and a send past its unlocked check can still push (`HttpPool.StopIsFinalExactlyWhen`,
  with runs that get there: `HttpPool.StopCanLeaveABatch`, `HttpPool.StopCanOvertakeASend`).
- A failed screen write is documented to be forgotten so that the next redraw resends it. A failed write for
  everyone is remembered instead, and never resent (`ScreenWrites.RefusedGlobalWriteIsNotRetried`).
- `Database::Connect` is documented to fail for a bad configuration or an unreachable database. It also fails
  without trying inside the backoff that an earlier connection left behind
  (`DatabaseWorker.FirstJobTriesExactlyWhenBackoffIsOver`, `DatabaseWorker.ReconnectCanFailUntried`).
  The call that docs/database.md (line 30) names Stop is Disconnect in the code.
- A vote's callbacks may start the next vote. One started from Passed runs with its panel shut
  (`Ballots.PassedStartingAVoteShutsItsPanel`); one started from Finished does not.
- PlayerOrSteamId is documented to fall back to a bare id for a player the caller may not act on. The code falls
  back exactly when nobody answers (`CommandBinding.FallsBackExactlyWhenNobodyAnswers`,
  `CommandBinding.OwnIdOfAProtectedPlayerIsRefused`).
- A hidden pawn is documented to take its weapons and wearables along. It does within two caps of 24
  (`Visibility.HiddenPawnTakesAllExactlyWhen`).
- Disconnected is said to be raised while the player is still in the roster. Its first subscriber finds them; a
  later one does unless an earlier one had the slot dropped (`RosterRuns.HandlerFindsItsPlayerExactlyWhen`,
  `RosterRuns.SecondSubscriberCanMissItsPlayer`). The event carries the player by reference, so that subscriber, like
  a Connected one in the same place (`RosterRuns.ConnectedCanNameADepartedPlayer`), is handed one that dangles.
- A ballot is counted before its slot stops being waited for, so a listener of vote_cast can have it counted twice,
  or one that hears another listener's ballot (`Ballots.ActAddsUpExactlyWhen`, `Ballots.ListenerCanCountASlotTwice`,
  `Ballots.NestedListenerCanCountASlotTwice`).
- A commit may replace its entry, as PendingCommit.cpp says where it runs one. One that does is overwritten, and
  never runs, when it was flushed by a hold (`CommitTrees.HoldLosesExactlyWhen`).
- A page jump from a negative row can miss its page (`MenuCursor.JumpEndsOnThePageExactlyWhen`); no cursor is
  negative.
- A push over a pending menu commit can lose it (`MenuStacks.PushOverPendingLosesACommit`), and a migration that
  arrives late or shares a version is passed over (`MigrationRuns.LateVersionIsNeverApplied`,
  `MigrationRuns.TwinVersionIsDroppedSilently`; the run that meets the shared version fails:
  `MigrationRuns.RunSucceedsExactlyWhen`).

One source comment reads otherwise than the documentation: convar queries for one variable do not share a request
among callbacks. Only the newest callback is answered, as docs/sdk/client-telemetry.md (lines 67-69) has it, and
`ConVarQueries.RegistrationEndsExactlyWhen` proves.

## Assumptions

- Dropping a subscription cancels its timer; a frame queue delivers in order; per-slot state resets when a slot
  changes hands.
- Engine writes, spawns, sends, SQL and network calls succeed or fail as parameters say. Time, randomness and
  the policy's answers are parameters. Delivering a job's answer does not itself raise.
- A bot has SteamID 0. A roster snapshot holds each slot once, so looking up a listed player succeeds.
- Handlers and callbacks are finite trees of calls back into the service they belong to; one raise enters any
  number of subscribers in turn.

## Model

| member | source | states |
|---|---|---|
| `HttpPool.NoRequestIsStranded` | src/Http/HttpClient.cpp:93-144 | In every interleaving of sends, notifications, wake-ups (spurious ones too), completions and a stop: while a request waits and the client is not stopped, some worker is awake or a notification is still owed. Never more than 4 workers or 64 waiting requests. |
| `HttpPool.EachRequestIsInOnePlace` | src/Http/HttpClient.cpp:73-162 | In every reachable state each request ever sent is in exactly one of waiting, running, completed, in the batch being delivered, delivered, or cleared by Stop; so its callback runs at most once. Requests are started in the order they were accepted. |
| `HttpPool.InternalStepsDecrease` | src/Http/HttpClient.cpp:73-162 | Every step the pool takes by itself lowers one measure, so workers drain the queue, and after Stop all of them exit, in finitely many steps. |
| `HttpPool.QuietMeansDrained` | src/Http/HttpClient.cpp:93-162 | Where those steps end: nothing runs; an unstopped pool has an empty queue and sleeping workers; a stopped one has only exited workers and its Stop has finished. |
| `HttpPool.StopIsFinalExactlyWhen` | src/Http/HttpClient.cpp:146-167 | After Stop nothing waits and no completion runs in any continuation, a second Stop included, if and only if Stop was not called from inside a delivery batch with completions still behind it and no send sits between its unlocked check and the mutex as Stop finishes. |
| `HttpPool.StopCanLeaveABatch` | src/Http/HttpClient.cpp:146-167 | A run in which the first completion of a batch calls Stop and the second is still delivered afterwards. |
| `HttpPool.StopCanOvertakeASend` | src/Http/HttpClient.cpp:118-162 | A run in which a send has passed its check when Stop finishes. |
| `HttpPool.BurstSharesOneIdleWorker` | src/Http/HttpClient.cpp:118-144 | In every reachable state a burst of any number of sends that fit the queue spawns no worker if and only if, as it begins, some worker sleeps or has been notified without having locked yet, or 4 exist: one such worker is shared by the whole burst. |
| `HttpPool.TwoRequestsCanShareAWorker` | src/Http/HttpClient.cpp:93-144 | A run that ends with two requests waiting for one sleeping worker while three more could be started. |
| `HttpPool.CompletionsRunInOrder` | src/Http/HttpClient.cpp:73-167 | Completions run in the order in which their requests completed or were refused at 64 waiting: in every run, those delivered, the rest of the batch and the queue are together the list of completions, less what Stop discarded. |
| `HttpPool.RequestsStartInOrder` | src/Http/HttpClient.cpp:93-142 | Requests are started, dropped and left waiting in the order in which they reached the mutex. |
| `HttpPool.NothingStartsOnceStopped` | src/Http/HttpClient.cpp:93-106 | Once the flag is up no waiting request starts, in any continuation. |
| `HttpPool.StepKeepsAttended` | src/Http/HttpClient.cpp:93-144 | Every single step keeps a waiting request attended, given the bounds and the order of Stop. |
| `HttpPool.StepKeepsPlaces` | src/Http/HttpClient.cpp:73-162 | Every single step keeps each request in exactly one place. |
| `HttpClient.Requests.Admits` | src/Http/HttpClient.cpp:118-125 | The unlocked check of Stopped is the model step that lets a send go on. |
| `HttpClient.Requests.PushRequest` | src/Http/HttpClient.cpp:127-142 | The locked part of Send takes the shared state to the next model state: refusal with a completion at 64, otherwise the push, and a spawn only when no worker is idle and fewer than 4 exist. |
| `HttpClient.Requests.NotifyOne` | src/Http/HttpClient.cpp:143 | The notification wakes a sleeper if there is one, and is no longer owed. |
| `HttpClient.Requests.WakeSpuriously` | src/Http/HttpClient.cpp:97 | A wait may return without a notification. |
| `HttpClient.Requests.Take` | src/Http/HttpClient.cpp:93-106 | One locked look of a worker: the idle counter, the wait condition, exit once stopped, else the front request is taken. |
| `HttpClient.Requests.Complete` | src/Http/HttpClient.cpp:73-90 | A finished request becomes a completion and its worker looks again. |
| `HttpClient.Requests.CollectCompletions` | src/Http/HttpClient.cpp:164-167 | A frame moves the completions into one batch to deliver. |
| `HttpClient.Requests.RunCompletion` | src/Http/HttpClient.cpp:164-167 | Delivery takes the batch from its front. |
| `HttpClient.Requests.SetStopped` | src/Http/HttpClient.cpp:146-152 | Stop raises the flag under the mutex. |
| `HttpClient.Requests.NotifyAll` | src/Http/HttpClient.cpp:153 | Every sleeper is woken. |
| `HttpClient.Requests.ClearAll` | src/Http/HttpClient.cpp:154-162 | Once every worker has exited, workers, waiting requests and completions are cleared. |
| `ScreenWrites.CacheAgreesWithSendingEverything` | src/Ui/ScreenEntity.cpp:36-187 | For every trace of writes, spawns, entity losses, removals, slot changes, full connects and refused writes, the engine state of every player slot (and all of a player screen) equals that of a system that sends every write. |
| `ScreenWrites.GlobalRecordStaysExactUnlessRefused` | src/Ui/ScreenEntity.cpp:335-348 | One step of a shared screen keeps the record for everyone equal to what the live entity was told, if and only if it is not a changed global write that the engine refuses. |
| `ScreenWrites.SharedScreenAgreesWithoutRefusals` | src/Ui/ScreenEntity.cpp:108-187 | Without such refusals the whole engine state of a shared screen, global state included, equals that of sending every write. |
| `ScreenWrites.RefusedGlobalWriteIsNotRetried` | src/Ui/ScreenEntity.cpp:335-348 | After a refused global write no repeat of it is ever sent, in any continuation that writes no other value to that target and keeps the entity; sending every write delivers it with the first repeat. |
| `ScreenWrites.KeysAreInjective` | src/Ui/WriteCache.cpp:100-108 | The joined cache key tells any two targets apart as long as element ids hold no separator, whatever the names hold. |
| `ScreenWrites.SeparatorInElementLosesAWrite` | src/Ui/WriteCache.cpp:100-108 | Every element id that has a separator in it shares its keys with another target, whose write of the same value is then skipped and never reaches the engine. |
| `ScreenWrites.RememberIsPrecise` | src/Ui/WriteCache.cpp:28-63 | Remembering one write changes what is remembered for that target only. |
| `ScreenWrites.WriteKeepsTruth` | src/Ui/ScreenEntity.cpp:108-160 | A write keeps the cache of a player slot a subset of what the live entity holds. |
| `ScreenWrites.WriteKeepsAgreement` | src/Ui/ScreenEntity.cpp:108-160 | A write through a truthful cache and the same write without one leave the same covered engine state. |
| `ScreenWrites.EnsureSpawnedIsTruthful` | src/Ui/ScreenEntity.cpp:64-94 | EnsureSpawned answers true only when the target can be written to now; when it answers false over a live entity, asking again changes nothing until the players change. |
| `ScreenWrites.WriteLandsInItsPlace` | src/Ui/ScreenEntity.cpp:108-160 | In every run, cached or not, an accepted write changes exactly its own place: everyone's for text and classes of a player screen, the owner's for its cursor, the slot named on a shared screen; one for another player's slot, refused, or past the states changes nothing. |
| `ScreenWrites.PlayerScreenKeepsToItsPlaces` | src/Ui/ScreenEntity.cpp:108-160 | In every run a player screen holds text and classes for everyone only and a cursor for its owner only. |
| `ScreenWrites.FailedWriteForgetsTheSlot` | src/Ui/ScreenEntity.cpp:335-348 | A changed write that does not reach a player's slot forgets all that the slot was sent. |
| `ScreenWrites.SpawnsOnlyWhenItMust` | src/Ui/ScreenEntity.cpp:64-94 | Nothing is spawned for a slot the screen has no business with, one it reaches already, or one it misses while no player has come or gone. |
| `ScreenWrites.SpawnStartsEmpty` | src/Ui/ScreenEntity.cpp:162-187 | Whatever EnsureSpawned spawns holds no value, and the cache is empty with it. |
| `ScreenWrites.NewPlayersAllowARespawn` | src/Ui/ScreenEntity.cpp:32-51 | After any slot change or full connect a screen that misses a slot is made again for it, and then reaches it. |
| `ScreenWrites.EventsTakeOnlyTheirOwn` | src/Ui/ScreenEntity.cpp:32-51 | The owner's slot change takes the screen; any other event takes that slot's values and no others. |
| `ScreenEntity.WriteCache.For` | src/Ui/WriteCache.cpp:9-26 | A slot gets its record on first use; a slot that is neither valid nor everyone has none. |
| `ScreenEntity.WriteCache.BuildKey` | src/Ui/WriteCache.cpp:100-108 | The reused buffer ends up holding exactly the key of the target. |
| `ScreenEntity.WriteCache.Changed` | src/Ui/WriteCache.cpp:28-51 | True exactly when the value differs from what is remembered, which is then replaced. |
| `ScreenEntity.WriteCache.CursorChanged` | src/Ui/WriteCache.cpp:53-63 | The same for the cursor flag. |
| `ScreenEntity.WriteCache.Invalidate` | src/Ui/WriteCache.cpp:77-87 | The slot forgets everything it was sent. |
| `ScreenEntity.WriteCache.RemoveSlot` | src/Ui/WriteCache.cpp:89-92 | The slot loses its record. |
| `ScreenEntity.WriteCache.Clear` | src/Ui/WriteCache.cpp:94-98 | Every record is forgotten. |
| `ScreenEntity.Entity.WriteText` | src/Ui/ScreenEntity.cpp:108-118 | Writing text is the model step that goes through the cache, to everyone on a player screen. |
| `ScreenEntity.Entity.WriteClass` | src/Ui/ScreenEntity.cpp:120-129 | The same for a class toggle. |
| `ScreenEntity.Entity.WriteCursor` | src/Ui/ScreenEntity.cpp:131-140 | The same for the cursor, which stays per player. |
| `ScreenEntity.Entity.Send` | src/Ui/ScreenEntity.cpp:206-348 | A write the engine does not take leaves it as it was, and forgets the slot only when it is a player slot. |
| `ScreenEntity.Entity.Spawn` | src/Ui/ScreenEntity.cpp:162-187 | Spawning starts from a removed entity and an empty cache, and clears the change flag first. |
| `ScreenEntity.Entity.EnsureSpawnedFor` | src/Ui/ScreenEntity.cpp:64-94 | Spawn when there is no entity, respawn once for a slot it does not cover if the players have changed. |
| `ScreenEntity.Entity.RemoveEntity` | src/Ui/ScreenEntity.cpp:96-106 | The entity and the cache go together. |
| `ScreenEntity.Entity.OnSlotChanged` | src/Ui/ScreenEntity.cpp:36-46 | A slot that changes hands loses its record, and the owner of a player screen takes the screen down. |
| `ScreenEntity.Entity.OnFullyConnected` | src/Ui/ScreenEntity.cpp:47-51 | A full connect forgets what the slot was sent. |
| `DatabaseWorker.EachJobIsAnsweredOnce` | src/Database/Client.cpp:55-161 | In every interleaving each job ever enqueued is in exactly one of answered, in the worker's hands, queued, refused with its failure still to come, or turned away; accepted jobs are answered in the order they were accepted; the queue holds at most 4096. |
| `DatabaseWorker.StoppedMeansAnswered` | src/Database/Client.cpp:55-76 | In the Stopped state the queue is empty and every accepted job has been answered, so no blocking Run is left waiting. |
| `DatabaseWorker.FailedAttemptsBackOff` | src/Database/Client.cpp:163-189 | Two attempts to open a connection, the first of which failed, are at least the backoff apart in every run. |
| `DatabaseWorker.AnswerSaysWhatHappened` | src/Database/Client.cpp:107-189 | In every run a job is answered as having run if and only if some step ran it without a raise, and as failed if and only if some step saw it raise, saw its attempt fail, found the backoff, or found it queued past the deadline. |
| `DatabaseWorker.ConnectionOpensAndCloses` | src/Database/Client.cpp:142-189 | A connection opens only by an attempt that succeeds, and closes when a job raises, when it is lost and when the worker exits. |
| `DatabaseWorker.AcceptedExactlyBelowTheCap` | src/Database/Client.cpp:78-105 | A job is queued behind the others while the client runs and fewer than 4096 wait, and turned away otherwise. |
| `DatabaseWorker.DisconnectKeepsItsDeadline` | src/Database/Client.cpp:55-76 | Until the next Connect a disconnect's deadline is the moment it began and its allowance. |
| `DatabaseWorker.InternalStepsDecrease` | src/Database/Client.cpp:55-189 | Every step the worker and a disconnect in progress take by themselves lowers one measure. |
| `DatabaseWorker.RestMeansEverythingAnswered` | src/Database/Client.cpp:55-161 | Where those steps end, every job has been answered and no disconnect is unfinished. |
| `DatabaseWorker.PastDeadlineNothingStarts` | src/Database/Client.cpp:116-140 | Past the stop deadline no queued job starts in any continuation before the next Connect. |
| `DatabaseWorker.ReconnectWithinBackoffNeverTries` | src/Database/Client.cpp:163-189 | Until the backoff of an earlier failure has run out, a Connect makes no attempt and every job it is given fails. |
| `DatabaseWorker.FirstJobTriesExactlyWhenBackoffIsOver` | src/Database/Client.cpp:163-189 | The first job after a Connect makes a connection attempt if and only if the last failed attempt, of whichever connection, is a backoff ago as the worker looks; otherwise it fails there and then, untried. |
| `DatabaseWorker.ReconnectCanFailUntried` | src/Database/Client.cpp:19-76 | A run in which a second Connect's ping fails although nothing was tried for it. |
| `DatabaseWorker.StepKeepsOrdered` | src/Database/Client.cpp:78-161 | Every step keeps: accepted jobs are those answered, then the one in hand, then the queue. |
| `DatabaseWorker.StepKeepsAttended` | src/Database/Client.cpp:78-140 | Every step keeps a queued job attended: somebody is coming for it. |
| `DatabaseWorker.StepKeepsPlaces` | src/Database/Client.cpp:78-161 | Every step keeps each job in exactly one place. |
| `DatabaseClient.Database.EnqueueJob` | src/Database/Client.cpp:78-105 | Enqueue's locked part: accepted when running and below the cap, refused otherwise. |
| `DatabaseClient.Database.FailRefusedJob` | src/Database/Client.cpp:78-105 | A refused job's failure runs outside the lock. |
| `DatabaseClient.Database.NotifyWorker` | src/Database/Client.cpp:78-105 | The notification that an accepted job still owes. |
| `DatabaseClient.Database.Take` | src/Database/Client.cpp:116-140 | TakeJob under the lock: wait, past the deadline fail the whole queue, exit when stopping with nothing left, else take the front. |
| `DatabaseClient.Database.FailQueue` | src/Database/Client.cpp:116-140 | Every queued job fails, in order, and the queue is empty. |
| `DatabaseClient.Database.CheckConnection` | src/Database/Client.cpp:163-189 | EnsureOpen before the attempt: an open connection is used, inside the backoff the job fails at once. |
| `DatabaseClient.Database.FinishOpening` | src/Database/Client.cpp:163-189 | The end of an attempt: the job goes on, or fails and the backoff starts. |
| `DatabaseClient.Database.RunJob` | src/Database/Client.cpp:142-161 | A job that raises is failed, any other is answered. |
| `DatabaseClient.Database.StartRunning` | src/Database/Client.cpp:19-53 | Connect only starts a stopped client. |
| `DatabaseClient.Database.StartStopping` | src/Database/Client.cpp:55-76 | Disconnect only stops a running client, and fixes the deadline. |
| `DatabaseClient.Database.JoinWorker` | src/Database/Client.cpp:55-76 | The join waits for the worker to exit. |
| `DatabaseClient.Database.FinishStopping` | src/Database/Client.cpp:55-76 | Only after the join is the client Stopped. |
| `Dialects.ResolveDialect` | include/VoltMod/Database/Migrator.hpp:95-160 | The hand-written scanner returns exactly what the regular-expression renderer returns, for every text and driver, and on failure names the same first unknown placeholder; it stops because its position strictly grows. |
| `Dialects.ScannerAcceptsOnlyMatches` | include/VoltMod/Database/Migrator.hpp:104-121 | Whatever the scanner takes for a placeholder is a match of the regular expression, taken in its textbook meaning. |
| `Dialects.ScannerAcceptsEveryMatch` | cli/voltmod/database/migrations.py:35 | Every match of the regular expression is found by the scanner with the same end, so the match at a place is unique. |
| `Dialects.AppendSpelling` | include/VoltMod/Database/Migrator.hpp:125-156 | The chain of branches appends what the other table replaces the token by, and refuses exactly the tokens it does not know. |
| `Dialects.SpelledText` | include/VoltMod/Database/Migrator.hpp:71-86 | Both tables spell the fixed placeholders alike for every driver. |
| `Dialects.ConflictText` | cli/voltmod/database/migrations.py:51-59 | Both conflict clauses are the same text, though one keeps the closing parenthesis and the other takes it off and puts it back. |
| `Placeholders.OnlyTheseAreKnown` | include/VoltMod/Database/Migrator.hpp:71-86 | A token is unknown on every driver if and only if it is none of the five names and no ON_CONFLICT. |
| `Dialects.NoPlaceholderNoChange` | include/VoltMod/Database/Migrator.hpp:97-160 | A file without placeholders is left as it is. |
| `Dialects.FindClose` | include/VoltMod/Database/Migrator.hpp:106-116 | Where a placeholder opened at some place ends, and whether it is one. |
| `Placeholders.PlaceholderMatches` | cli/voltmod/database/migrations.py:35 | What the regular expression matches, character by character. |
| `StatementSplitter.SplitStatements` | include/VoltMod/Database/Migrator.hpp:168-212 | The one-pass splitter gives the same statements as reading the text twice: comments out first, then cut at separators outside literals. |
| `StatementSplitter.SkipComment` | include/VoltMod/Database/Migrator.hpp:192-199 | The inner loop leaves the scan at the end of the comment line. |
| `StatementSplitter.Flush` | include/VoltMod/Database/Migrator.hpp:173-180 | The collected text becomes a trimmed statement unless it is blank. |
| `StatementForm.SplitIsNormalForm` | include/VoltMod/Database/Migrator.hpp:168-212 | Joining the statements by separators and splitting again gives the same statements, for every text. |
| `StatementForm.WhatSplittingProduces` | include/VoltMod/Database/Migrator.hpp:168-212 | A list of strings is the split of some text if and only if every element is a trimmed non-empty statement without separators or comments outside literals, and only the last leaves a literal open. |
| `StatementForm.StatementsAreClean` | include/VoltMod/Database/Migrator.hpp:168-212 | No statement starts or ends in a blank, and none holds a separator or a comment outside a literal, literals being found by counting quotes. |
| `StatementForm.SplittingKeepsEverythingElse` | include/VoltMod/Database/Migrator.hpp:168-212 | Blanks apart, the statements together are the text without its comments and separators: nothing is lost, repeated or reordered. |
| `StatementForm.CommentIsALineEnd` | include/VoltMod/Database/Migrator.hpp:192-199 | A comment outside a literal, whatever quotes and separators are in it, splits as the end of its line. |
| `StatementForm.TrimTakesBlanksOff` | include/VoltMod/Database/Migrator.hpp:170-180 | Trimming takes spaces, tabs and line ends off both sides, and nothing else. |
| `StatementForm.PlainCountsQuotes` | include/VoltMod/Database/Migrator.hpp:168-212 | Tracking whether the scan is inside a literal is the same as counting the quotes before each place. |
| `MigrationRuns.RunAppliesAnAscendingPrefix` | src/Database/Migrator.cpp:96-186 | With distinct versions on a driver that rolls back, whatever raises during a run: it applies a prefix of the files newer than the database in ascending order, records exactly those, runs exactly their statements, and reports success, count and version accordingly. |
| `MigrationRuns.RerunReachesTheCleanRun` | src/Database/Migrator.cpp:118-186 | A run that fails at any step and is run again reaches the database of one clean run. |
| `MigrationRuns.FailedRunsCostNothing` | src/Database/Migrator.cpp:118-186 | The same after any number of failed runs. |
| `MigrationRuns.LateVersionIsNeverApplied` | src/Database/Migrator.cpp:118-131 | A version not above the highest recorded one (or not above zero on an empty history) is never applied by any later run. |
| `MigrationRuns.RunSucceedsExactlyWhen` | src/Database/Migrator.cpp:96-186 | For any directory, any faults and every driver: a run reports success if and only if every file newer than the database goes in and no two of them share a version. |
| `MigrationRuns.FailedFileLeavesItsStatementsOnMariaDb` | src/Database/Migrator.cpp:150-180 | A file that fails at some step leaves the statements before it on MariaDB, and nothing on the other two drivers. |
| `MigrationRuns.TableNameByCharacter` | src/Database/Migrator.cpp:25-38 | A history table's name is a letter or an underscore, then any of these and digits. |
| `MigrationRuns.CallReportsItsTrouble` | src/Database/Migrator.cpp:57-209 | A bad table name or trouble before the run touches nothing, a missing directory is no failure, and losing the lock's connection afterwards is one though the migrations stay. |
| `MigrationRuns.TwinVersionIsDroppedSilently` | src/Database/Migrator.cpp:96-186 | Of a pair that shares a version, a clean run applies one and fails, and the next run reports success with the other never applied. |
| `MigrationRuns.WithoutRollbackRerunIsCleanExactlyWhen` | src/Database/Migrator.cpp:152-175 | For any directory with distinct versions where every statement commits by itself, a failed run and then a clean one reach the clean result if and only if the file that failed had run none of its statements. |
| `MigrationRuns.AnyCallCanBeRepeated` | src/Database/Migrator.cpp:57-209 | Whatever stops a call (the table name, SQL before the first file, a file, the release of the lock), the next clean run reaches what one clean run would have. Success is reported if and only if nothing went wrong, and then every newer file is in. |
| `MigrationRuns.SortedIsAscending` | src/Database/Migrator.cpp:96-97 | Sorting orders the files by version and keeps each of them. |
| `MigrationRuns.LoopAppliesGoing` | src/Database/Migrator.cpp:125-186 | The loop amounts to the newer files up to the first that cannot go in. |
| `MigrationRuns.LoopRecordsOnlyNewer` | src/Database/Migrator.cpp:125-186 | No run records a version at or below the one it started from, and none removes a row. |
| `MigrationRunner.Collect` | src/Database/Migrator.cpp:77-95 | The directory loop keeps the regular .sql files whose name starts with a version. |
| `MigrationRunner.OnlyMigrationFilesCount` | src/Database/Migrator.cpp:77-95 | An entry counts if and only if it is a regular file with a version whose name ends in .sql. |
| `MigrationRunner.VersionIsTheLeadingNumber` | include/VoltMod/Database/Migrator.hpp:39-50 | A file's version is the number its name begins with, minus sign included, where it fits 32 bits. |
| `MigrationRunner.NoVersionWithoutDigits` | include/VoltMod/Database/Migrator.hpp:39-50 | A name that begins with no digit, after a minus sign or not, has no version. |
| `MigrationRunner.FileIsItsStatements` | src/Database/Migrator.cpp:125-150 | What is run of a file without placeholders is its statements, with all its other text and in order; nothing of one that cannot be read. |
| `MigrationRunner.Connection.ApplyMigration` | src/Database/Migrator.cpp:44-55 | The statements in order, then the history row; nothing after the step that raises. |
| `MigrationRunner.Connection.InTransaction` | src/Database/Migrator.cpp:152-175 | A file is committed whole with its history row, or rolled back. |
| `MigrationRunner.Connection.Read` | src/Database/Migrator.cpp:132-150 | A file's statements: unreadable text or an unknown placeholder ends the run, otherwise the resolved text is split. |
| `MigrationRunner.Connection.ApplyNewer` | src/Database/Migrator.cpp:125-186 | The loop over the sorted files computes the model run. |
| `MigrationRunner.Connection.RunMigrations` | src/Database/Migrator.cpp:57-209 | The whole call, with the table name's check, the missing directory and SQL that raises before or after the loop, computes the model's call on the committed database. |
| `RosterRuns.EveryHandlerFindsAConsistentRoster` | src/Players/PlayerManager.cpp:11-125 | Under any finite tree of Add, Remove and Clear calls made by any number of subscribers, after every call and at the entry of every subscriber of every raise the ordered list is exactly the roster in strict slot order and every index entry is a connected human with that id. |
| `RosterRuns.FoundExactlyWhenNewest` | src/Players/PlayerManager.cpp:11-33 | A connected human is found by SteamID if and only if nobody was added under that id after them; so the index is complete while no two humans ever share an id. |
| `RosterRuns.AddSaysWhoLeftAndWhoCame` | src/Players/PlayerManager.cpp:69-88 | With handlers that call nothing, Add says that the slot's old player left, then that the slot changed, then that the new one came, and changes that slot alone. |
| `RosterRuns.RemoveSaysWhoLeft` | src/Players/PlayerManager.cpp:90-99 | Likewise Remove takes out one slot and says so, and does nothing on an empty one. |
| `RosterRuns.ClearSaysEveryoneLeft` | src/Players/PlayerManager.cpp:101-128 | Likewise Clear says of everyone, in slot order, that they left, then of every slot that it changed. |
| `RosterRuns.HandlerFindsItsPlayerExactlyWhen` | src/Players/PlayerManager.cpp:46-88 | In every run, a subscriber told of a player finds them in the roster if and only if no Add or Remove of that slot and no Clear has begun since: since the raise began for Disconnected, since the player was put in for Connected. |
| `RosterRuns.FirstSubscriberFindsItsPlayer` | src/Players/PlayerManager.cpp:46-56 | The first Disconnected subscriber always finds its player. |
| `RosterRuns.SecondSubscriberCanMissItsPlayer` | src/Players/PlayerManager.cpp:46-67 | Wherever a player is dropped, a first subscriber that removes the slot leaves the second told of a player who is gone. |
| `RosterRuns.ConnectedCanNameADepartedPlayer` | src/Players/PlayerManager.cpp:69-88 | A slot-change subscriber that removes the slot leaves the Connected subscribers told of a player who is gone. |
| `Roster.ExecTracks` | src/Players/PlayerManager.cpp:46-125 | Around any call, with everything its handlers do: a player stays connected exactly while no call begun drops their slot. |
| `Roster.DropIsGood` | src/Players/PlayerManager.cpp:46-67 | Dropping a player keeps the roster consistent around any handlers. |
| `Roster.ExecIsGood` | src/Players/PlayerManager.cpp:69-125 | Each call with all its nested calls keeps the roster consistent. |
| `Roster.SortedViewIsUnique` | src/Players/PlayerManager.cpp:35-44 | A slot map has only one list of its players in strict slot order. |
| `PlayerManager.Players.Reindex` | src/Players/PlayerManager.cpp:35-44 | The list is rebuilt as the slot map in slot order. |
| `PlayerManager.Players.IndexBySteamId` | src/Players/PlayerManager.cpp:11-17 | A human is indexed under the id, replacing an earlier one; a bot is not. |
| `PlayerManager.Players.UnindexBySteamId` | src/Players/PlayerManager.cpp:19-33 | The index entry goes only if it is this player's. |
| `PlayerManager.Players.DropSlot` | src/Players/PlayerManager.cpp:46-67 | Drop, with its Disconnected handlers, is the model's drop. |
| `PlayerManager.Players.AddPlayer` | src/Players/PlayerManager.cpp:69-88 | Add, with every handler it raises, is the model's call. |
| `PlayerManager.Players.RemovePlayer` | src/Players/PlayerManager.cpp:90-99 | Remove, with its handlers, is the model's call. |
| `PlayerManager.Players.ClearPlayers` | src/Players/PlayerManager.cpp:101-125 | Clear, with its handlers, is the model's call. |
| `PlayerManager.Players.BySteamId` | src/Players/PlayerManager.cpp:157-161 | The lookup answers with the index entry. |
| `CommitFates.EachHoldMeetsItsFate` | src/Menu/PendingCommit.cpp:11-64 | In every trace a held commit runs exactly once if the first later operation that concerns it is a flush, a hold of another row or its own timer; never if that is a repeat of the row, a drop or a slot change; and it is the slot's entry if there is none. |
| `CommitFates.FirstVerdictDecides` | src/Menu/PendingCommit.cpp:11-64 | That fate is read off the trace alone: the first operation with a verdict decides. |
| `CommitFates.LiveTimersAreCurrent` | src/Menu/PendingCommit.cpp:11-64 | A live timer always belongs to its slot's current entry, and every entry has one. |
| `CommitFates.StepKeepsAgreement` | src/Menu/PendingCommit.cpp:11-64 | Each operation keeps the entries equal to the unsettled holds of the trace. |
| `CommitTrees.EachHoldHasOneFate` | src/Menu/PendingCommit.cpp:11-64 | With commits that are finite trees of calls back into the component: every hold ever made is held, run, replaced by its own row, dropped or lost, and one of these only; a commit runs at most once, and a lost one never. |
| `CommitTrees.HoldLosesExactlyWhen` | src/Menu/PendingCommit.cpp:11-29 | A hold overwrites another if and only if another row was held and its commit, run by the flush, has left the slot held; the one overwritten is then a hold made in the course of that commit. |
| `CommitTrees.CommitThatHoldsCanLoseIt` | src/Menu/PendingCommit.cpp:11-29 | A commit that holds another row of its slot loses it when a third row's hold flushes it. |
| `CommitTrees.HoldlessCommitsLoseNothing` | src/Menu/PendingCommit.cpp:11-56 | While no commit makes a hold, whatever else it calls, nothing is ever lost. |
| `CommitTrees.OnlyFlushesRun` | src/Menu/PendingCommit.cpp:11-56 | A flush and a hold of another row run what was held, before any commit it makes; a drop and a hold of the same row run nothing. |
| `CommitTrees.CallsAreMadeInOrder` | src/Menu/PendingCommit.cpp:11-56 | Calls are made one after the other, each on what the earlier ones left. |
| `ReentrantCommit.Pending.HoldCommit` | src/Menu/PendingCommit.cpp:11-29 | Hold, with whatever the flushed commit calls, is the model step. |
| `ReentrantCommit.Pending.ApplyCommit` | src/Menu/PendingCommit.cpp:41-56 | The entry is taken out before its commit runs, which may hold another. |
| `MenuStacks.LeavingSettles` | src/Menu/MenuStack.cpp:81-124 | After Pop, Clear, PopToRoot, an activation, a flush or a slot change nothing is pending for the slot. |
| `MenuStacks.LeavingRunsUnlessActivated` | src/Menu/MenuStack.cpp:81-219 | A pending commit that goes away was run, unless its own row was activated or the slot changed hands. |
| `MenuStacks.EveryCommitMeetsItsFate` | src/Menu/MenuStack.cpp:187-251 | Every commit the menus hold meets the fate its trace gives it. |
| `MenuStacks.HeldOnCurrentUnlessPushedOver` | src/Menu/MenuStack.cpp:70-79 | A step keeps pending commits on the menu the slot looks at, if and only if it does not push a menu over one. |
| `MenuStacks.SupersededOnlyByTheSameRow` | src/Menu/MenuStack.cpp:221-251 | In runs that never push over a pending commit, only another step on the same row of the same menu supersedes it. |
| `MenuStacks.ActivateDiscardsOnlyItsOwnRow` | src/Menu/MenuStack.cpp:187-204 | In such runs activating a row discards a pending commit only if it is of that very row of the menu looked at; any other commit runs first. |
| `MenuStacks.PushOverPendingLosesACommit` | src/Menu/MenuStack.cpp:70-79 | A push over a pending commit can lose it to the row with the same number in the new menu. |
| `MenuStacks.PopUndoesPush` | src/Menu/MenuStack.cpp:70-101 | A pushed menu is the one looked at, and popping it brings back what was there. |
| `MenuStacks.StacksFollowTheirEvents` | src/Menu/MenuStack.cpp:103-124 | PopToRoot leaves the menu opened first, Clear and a slot change leave none, and no event touches another slot's stack. |
| `MenuStacks.StepHoldsUntilItsTimer` | src/Menu/PendingCommit.cpp:11-39 | A step on the menu looked at leaves its row's commit held, and its timer runs that commit. |
| `MenuStack.PendingCommit.Hold` | src/Menu/PendingCommit.cpp:11-29 | Another row's commit runs first; the same row only restarts its delay. |
| `MenuStack.PendingCommit.ApplyHeld` | src/Menu/PendingCommit.cpp:41-56 | The entry is taken out, its timer dropped, and its commit run. |
| `MenuStack.PendingCommit.DropHeld` | src/Menu/PendingCommit.cpp:58-64 | The entry and its timer are dropped unrun. |
| `MenuStack.Stack.PushMenu` | src/Menu/MenuStack.cpp:70-79 | Push adds a menu and leaves what is pending alone. |
| `MenuStack.Stack.PopMenu` | src/Menu/MenuStack.cpp:81-101 | Pop flushes, then takes the top menu off. |
| `MenuStack.Stack.ClearMenus` | src/Menu/MenuStack.cpp:103-112 | Clear flushes and empties the stack. |
| `MenuStack.Stack.PopToRootMenu` | src/Menu/MenuStack.cpp:114-124 | PopToRoot flushes and keeps the first menu. |
| `MenuStack.Stack.BeginActivate` | src/Menu/MenuStack.cpp:187-204 | Activating the pending row drops its commit; activating any other flushes. |
| `MenuStack.Stack.FinishStep` | src/Menu/MenuStack.cpp:241-248 | A step holds its commit only if the slot still looks at the menu it began on. |
| `ConVarQueries.TableIsAlwaysSound` | src/Hooks/PendingConVarQueries.cpp:9-109 | In every reachable state a slot holds at most 11 queries with pairwise distinct cookies, names and callbacks, every cookie in 1..2^31-1. |
| `ConVarQueries.NextCookieAlwaysSucceeds` | src/Hooks/PendingConVarQueries.cpp:37-61 | In every reachable state the twelve attempts reach a free cookie on any slot not over its cap, however often the counter has wrapped. |
| `ConVarQueries.RoomMeansFreeCookie` | src/Hooks/PendingConVarQueries.cpp:37-61 | The pigeonhole behind it, through the wraparound. |
| `ConVarQueries.CookiesDifferWithinWindow` | src/Hooks/PendingConVarQueries.cpp:37-61 | Cookies issued fewer than 2^31-1 increments apart differ, through the wraparound. |
| `ConVarQueries.AskFailsOnlyWhenFullOrUnsendable` | src/Hooks/ClientConVars.cpp:86-116 | A query on a valid slot with a name is accepted if and only if the name is in flight already, or the slot has room and the client can be sent to; never refused for lack of a cookie. |
| `ConVarQueries.CallbacksRunOnceForTheirOccupant` | src/Hooks/ClientConVars.cpp:158-192 | No callback runs twice, and each runs for the occupant it was registered for. |
| `ConVarQueries.DroppedCallbackNeverRuns` | src/Hooks/PendingConVarQueries.cpp:9-18 | A callback whose query was pruned, cleared, replaced or refused never runs in any continuation. |
| `ConVarQueries.RegistrationEndsExactlyWhen` | src/Hooks/ClientConVars.cpp:86-126 | In every run, an event ends a pending registration if and only if it is its own answer, which runs it; a query of that slot for the same variable, or for any other once it is ten seconds old; the slot changing hands; or a server start. All but the answer lose its callback for good. |
| `ConVarQueries.AskingTwiceLosesTheFirst` | src/Hooks/ClientConVars.cpp:93-101 | Two queries of one variable in a row: the first callback never runs, whatever follows. |
| `ConVarQueries.StaleAnswerTakesNothing` | src/Hooks/PendingConVarQueries.cpp:75-93 | An answer with the cookie of a query that is gone takes no query issued within the window. |
| `ConVarQueries.AskLeavesItsQuery` | src/Hooks/ClientConVars.cpp:86-116 | An accepted query leaves the caller's callback pending: in place of one for the same name asked in the last ten seconds, keeping its cookie and time, or under a cookie no fresh query of the slot has. |
| `ConVarQueries.AskKeepsGood` | src/Hooks/ClientConVars.cpp:86-116 | Every query call keeps the table, the counter and the ledger of callbacks consistent. |
| `ConVarQueries.AnswerKeepsGood` | src/Hooks/ClientConVars.cpp:158-192 | Every answer does. |
| `ClientConVars.PendingQueries.Prune` | src/Hooks/PendingConVarQueries.cpp:9-18 | Exactly the queries younger than ten seconds stay, in order. |
| `ClientConVars.PendingQueries.Find` | src/Hooks/PendingConVarQueries.cpp:20-30 | The first query for the name, if there is one. |
| `ClientConVars.PendingQueries.NextCookie` | src/Hooks/PendingConVarQueries.cpp:37-61 | The counter advances by the number of attempts made, and the cookie is its value unless that is in use. |
| `ClientConVars.PendingQueries.Add` | src/Hooks/PendingConVarQueries.cpp:63-73 | A valid query is appended to its slot. |
| `ClientConVars.PendingQueries.Take` | src/Hooks/PendingConVarQueries.cpp:75-93 | The query with the cookie is removed and returned if it asked for that name; nothing changes otherwise. |
| `ClientConVars.PendingQueries.ClearAll` | src/Hooks/PendingConVarQueries.cpp:103-109 | Every slot is emptied. |
| `ClientConVars.Service.Ask` | src/Hooks/ClientConVars.cpp:86-116 | Query is the model step, with its answer. |
| `ClientConVars.Service.OnRespond` | src/Hooks/ClientConVars.cpp:158-192 | A well-formed answer is the model step. |
| `ClientConVars.Service.OnSlotChanged` | src/Hooks/ClientConVars.cpp:32-33 | A slot that changes hands loses its queries. |
| `ClientConVars.Service.OnServerStartup` | src/Hooks/ClientConVars.cpp:123-126 | A map start loses every query. |
| `CommandSyntax.Tokenize` | src/Commands/CommandSyntax.cpp:6-47 | The loop computes the model's arguments. |
| `CommandSyntax.EveryListHasASpelling` | src/Commands/CommandSyntax.cpp:6-47 | Every list of arbitrary strings has a spelling that splits back into exactly that list. |
| `CommandSyntax.BareWordReads` | src/Commands/CommandSyntax.cpp:6-47 | A word without spaces needs no quotes: it is one argument up to the next space. |
| `CommandSyntax.QuotesDoNotCut` | src/Commands/CommandSyntax.cpp:6-47 | Quotes in the middle of a word keep the spaces between them and do not cut the word. |
| `CommandSyntax.UnclosedQuoteTakesTheRest` | src/Commands/CommandSyntax.cpp:6-47 | A quote that is never closed takes the rest of the line. |
| `CommandSyntax.QuotedReadsBackExactlyWhen` | src/Commands/CommandSyntax.hpp:20-22 | Wrapping an argument in quotes and escaping its quotes reads back if and only if it does not end in a backslash. |
| `CommandSyntax.ReadsEscaped` | src/Commands/CommandSyntax.cpp:16-39 | Escaped text inside quotes reads as itself, unless a backslash at its end meets a quote. |
| `Targeting.FilterPlayers` | src/Commands/Targeting.cpp:104-222 | The method computes the model's resolution. |
| `Targeting.SuccessNamesTheEligible` | src/Commands/Targeting.cpp:171-221 | A resolution that succeeds names someone; everyone it names is meant, permitted and not protected; a single-target command gets exactly one; unless one is drawn at random, it names every eligible player in roster order. |
| `Targeting.FailureSaysWhy` | src/Commands/Targeting.cpp:171-213 | Each failure is reported if and only if its stage is the first that leaves nobody, or too many with their number. |
| `Targeting.NameTiers` | src/Commands/Targeting.cpp:156-168 | Exact names, else prefixes, else substrings. |
| `Targeting.QueryNamesByField` | src/Commands/Targeting.cpp:122-221 | On a command that takes several, a player is named if and only if it is targetable, of a kind the command takes, and its own slot, team, life, kind, id or name is what the query asks; a name asks for the best rank of it, prefix and substring. |
| `Targeting.RandomDrawsByIndex` | src/Commands/Targeting.cpp:201-206 | A random query returns the candidate at the drawn number modulo how many there are, the first without a source of chance. |
| `Targeting.SlotsComeInOrder` | src/Commands/Targeting.cpp:215-221 | From a roster in slot order the slots come back in slot order. |
| `Targeting.LowerByCharacter` | src/Commands/Targeting.cpp:156-168 | Names are compared with A to Z lowered and nothing else changed. |
| `Targeting.Candidates` | src/Commands/Targeting.cpp:122-169 | Everyone the query means, in roster order. |
| `CommandBinding.OptionalsTrail` | include/VoltMod/Commands/Args.hpp:237-255 | True if and only if everything after an optional argument is optional. |
| `CommandBinding.RestIsLast` | include/VoltMod/Commands/Args.hpp:257-271 | True if and only if no argument but the last is a Rest. |
| `CommandBinding.BindArgs` | src/Commands/ArgBinding.cpp:133-199 | The loop binds each argument to its own share of the tokens, or reports an error. |
| `CommandBinding.Dispatch` | src/Commands/CommandRouter.cpp:174-225 | The gates in order: permission, too many, too few, a bad argument, no handler, the call. |
| `CommandBinding.CheckedSignatureUnpacks` | include/VoltMod/Commands/CommandBuilder.hpp:259-292 | Whenever a signature that passes both compile-time checks is dispatched and its handler reached, there is one bound entry per argument and each unpacks: of its kind, or empty only if optional. |
| `CommandBinding.UnpackingIsSafeExactlyWhen` | include/VoltMod/Commands/CommandBuilder.hpp:259-292 | Unpacking is safe on every line if and only if nothing required follows an optional argument or a Rest. |
| `CommandBinding.TokensAreUsedOnceInOrder` | src/Commands/ArgBinding.cpp:143-196 | On a line that passes the arity checks every token goes to exactly one argument, in order. |
| `CommandBinding.EachArgumentIsItsShare` | src/Commands/ArgBinding.cpp:143-196 | Each bound entry is what its own tokens bind to. |
| `CommandBinding.TheFirstBadArgumentIsReported` | src/Commands/ArgBinding.cpp:191-194 | The error is that of the first argument that does not bind. |
| `CommandBinding.HandlersGetOnlyTargetablePlayers` | src/Commands/ArgBinding.cpp:30-76 | Every player a handler is given was meant by that argument's own token and may be acted on by the caller. |
| `CommandBinding.FallsBackExactlyWhenNobodyAnswers` | src/Commands/ArgBinding.cpp:51-76 | A bare SteamID stands in for a player if and only if the token is a number in range and nobody online answers to it. |
| `CommandBinding.ProtectedPlayerIsRefused` | src/Commands/ArgBinding.cpp:51-76 | A token that means somebody, each of whom the policy protects, is refused as immune. |
| `CommandBinding.OwnIdOfAProtectedPlayerIsRefused` | src/Commands/ArgBinding.cpp:51-76 | So is, on any roster, the SteamID64 of a player who is online and protected, where the documentation has it fall back. |
| `CommandBinding.EachArgumentBindsAsAlone` | src/Commands/ArgBinding.cpp:133-199 | A reached handler is given, for each argument, what that argument alone makes of its own tokens. |
| `CommandBinding.DurationCountsMinutes` | src/Commands/ArgBinding.cpp:78-89 | A duration that is a bare number is sixty times what the parser reads; any other is what it reads; one it cannot read is refused. |
| `CommandBinding.IntIsTheNumberSpelt` | src/Commands/ArgBinding.cpp:101-109 | An Int binds to n if and only if its token spells n in decimal and n fits 32 bits; a token that spells no such number is refused. |
| `CommandBinding.U64IsTheNumberSpelt` | src/Commands/ArgBinding.cpp:111-119 | Likewise a U64, in digits alone and up to 64 bits. |
| `CommandBinding.SteamIdIsTheNumberSpelt` | src/Commands/ArgBinding.cpp:91-99 | Likewise a SteamID64, in digits alone and up to 63 bits. |
| `CommandBinding.WordIsItsToken` | src/Commands/ArgBinding.cpp:178-180 | A Word is its token. |
| `CommandBinding.RestIsSpaced` | src/Commands/ArgBinding.cpp:181-188 | Wherever the tokens of a Rest are cut, its text is that of both parts with one space between; with one token it is that token (RestOfOneToken). |
| `CommandBinding.TargetsAreThoseFound` | src/Commands/ArgBinding.cpp:29-64 | A token that finds one player binds to that player and, as a SteamID, to that player's own; a Targets takes all it finds. |
| `CommandBinding.RefusalNamesItsReason` | src/Commands/ArgBinding.cpp:9-27 | A token that finds nobody is refused by the key of its reason, with the count where there were too many. |
| `CommandBinding.RefusedUnlessAnId` | src/Commands/ArgBinding.cpp:51-76 | A token that finds nobody binds to a bare id n if and only if it spells n and nobody answers to it; otherwise it is refused as for a player. |
| `CommandBinding.ReplyNamesTheGate` | src/Commands/CommandRouter.cpp:174-225 | Which reply each line gets: denied, too many tokens, a required argument without one, a bad argument, or the call. |
| `Decimals.ReadsWhatIsSpelt` | src/Core/Text/Strings.cpp:13-33 | Reading is the inverse of writing: digits have the value n if and only if they are n as one writes it, after any zeros. |
| `CommandBinding.Resolve` | src/Commands/TargetResolver.cpp:10-52 | Success is never empty, and is one player for a single target, so taking the front is safe. |
| `Ballots.RunningVoteAddsUp` | src/Hooks/Vote.cpp:146-203 | In every run, listeners of the vote's own events calling back at any depth: while a vote runs, yes plus no plus the slots still waited for is the eligible number and one more for each spoilt ballot (one whose slot its own listeners have settled), so it adds up if and only if no ballot is spoilt; the tally counts exactly this vote's ballots; a close is scheduled if and only if no more slots are waited for than ballots are spoilt. |
| `Ballots.NoSlotIsCountedTwice` | src/Hooks/Vote.cpp:146-178 | Per slot, where TallyCountsTheOptionsCast counts per option: in a vote without spoilt ballots no slot is counted twice, and its announced tally counts exactly the ballots cast in it. |
| `Ballots.OptionCountsOnItsSide` | src/Hooks/Vote.cpp:146-178 | Where the slot is awaited, "option1" raises the yes count by one and leaves the no count, "option2" the other way round, and any other option changes nothing. |
| `Ballots.TallyCountsTheOptionsCast` | src/Hooks/Vote.cpp:146-236 | In every run, listeners and callbacks included, an announced tally counts as yes the "option1" ballots of awaited slots and as no the "option2" ones, as counted off the calls made. |
| `Ballots.LeaverIsNoLongerEligible` | src/Hooks/Vote.cpp:180-197 | A leaver still waited for is one fewer eligible and leaves the counts. |
| `Ballots.VoteAsksEveryHuman` | src/Hooks/Vote.cpp:109-144 | A vote begins if and only if none runs, it has a test and some human is connected; it waits for each of them once, with nothing counted and its time limit set. |
| `Ballots.ActAddsUpExactlyWhen` | src/Hooks/Vote.cpp:146-203 | Counting a ballot fires vote_cast before its slot stops being waited for, for ballots cast by listeners too. A vote that adds up still does after a ballot or a leaver, with all their listeners do at any depth, if and only if nothing settles a slot whose own ballot is still being counted. |
| `Ballots.ListenerCanCountASlotTwice` | src/Hooks/Vote.cpp:159-178 | A listener that votes again for the slot gets it counted twice. |
| `Ballots.NestedListenerCanCountASlotTwice` | src/Hooks/Vote.cpp:159-178 | So does one that hears a ballot cast by another listener, though nothing touches the slot of the outer ballot. |
| `Ballots.ActGoesOn` | src/Hooks/Vote.cpp:146-203 | In the middle of any number of ballots being counted, an act and all its listeners do keep the books, the vote's own timers and every other vote's. |
| `Ballots.EachVoteEndsOnce` | src/Hooks/Vote.cpp:205-233 | Between events every vote ever started either runs or has been announced, exactly once, even if callbacks start and end further votes. |
| `Ballots.FiredTimerEndsItsOwnVote` | src/Hooks/Vote.cpp:194-222 | A timer that fires finds the vote that set it still running and ends that vote; when it is the close, the ballots cast reach the eligible number. |
| `Ballots.PanelIsOpenUnlessMuted` | src/Hooks/Vote.cpp:213-233 | Between events the panel takes key presses if and only if a vote runs that was not already running when another one was announced. |
| `Ballots.PassedStartingAVoteShutsItsPanel` | src/Hooks/Vote.cpp:213-233 | A vote started from another vote's Passed is left running with its panel shut. |
| `Ballots.FinishKeeps` | src/Hooks/Vote.cpp:213-233 | Finish, with all the calls its callbacks make, keeps the books and touches no other vote's timers, ballots or outcome. |
| `Ballots.ExecKeeps` | src/Hooks/Vote.cpp:109-211 | So does any finite tree of calls. |
| `Ballots.FinishAnnounces` | src/Hooks/Vote.cpp:213-222 | Finish announces the ballot it took out with the reason it was given, as passed exactly when it was not cancelled and its own test says so. |
| `Vote.Service.Start` | src/Hooks/Vote.cpp:109-144 | Start is the model step, with the listeners of the counts it publishes; refused while a vote runs, without Passed, or with no human connected. |
| `Vote.Service.CountVoters` | src/Hooks/Vote.cpp:116-124 | The loop over the roster counts each connected human once. |
| `Vote.Service.TryCastBallot` | src/Hooks/Vote.cpp:146-178 | A cast is the model step, with the listeners of vote_cast before the slot stops being waited for and those of vote_changed after; the command is taken while a vote runs whatever it says. |
| `Vote.Service.DropVoter` | src/Hooks/Vote.cpp:180-192 | A voter who leaves before voting is no longer eligible, and the listeners of vote_changed run before the close is looked at. |
| `Vote.Service.CloseIfAllVoted` | src/Hooks/Vote.cpp:194-203 | The close is scheduled once the ballots cast reach the eligible number. |
| `Vote.Service.Finish` | src/Hooks/Vote.cpp:213-233 | Finish, callbacks included, is the model step. |
| `Vote.Service.Fire` | src/Hooks/Vote.cpp:142-202 | A timer that fires is the model step. |
| `MenuCursor.Step` | src/Menu/MenuCursor.cpp:19-35 | The do-while loop computes the model's step. |
| `MenuCursor.StepFindsTheNearest` | src/Menu/MenuCursor.cpp:19-35 | From any row a step of one lands on the nearest selectable row in its direction, cyclically. |
| `MenuCursor.StepsAreInverse` | src/Menu/MenuCursor.cpp:19-35 | From a selectable row, back undoes forward and forward undoes back. |
| `MenuCursor.WalkReachesEveryRow` | src/Menu/MenuCursor.cpp:19-35 | Repeated steps reach every selectable row within one round. |
| `MenuCursor.WalkRepeatsOnlyAfterARound` | src/Menu/MenuCursor.cpp:19-35 | They repeat none before the round is over, which ends where it began. |
| `MenuCursor.ForwardIsNext` | src/Menu/MenuCursor.cpp:19-35 | From a selectable row a step forward is the next one in the list of selectable rows. |
| `MenuCursor.NothingSelectableStandsStill` | src/Menu/MenuCursor.cpp:26-32 | With nothing to select the cursor stays where it is, for every stride. |
| `MenuCursor.First` | src/Menu/MenuCursor.cpp:37-45 | The first selectable row, or row 0 when there is none. |
| `MenuCursor.JumpPage` | src/Menu/MenuCursor.cpp:47-71 | The landing row is the wanted one or the next selectable going round the page. |
| `MenuCursor.JumpLandsOnItsPage` | src/Menu/MenuCursor.cpp:54-70 | From a row that is not negative the landing row is on the target page, and selectable if and only if that page has a selectable row. |
| `MenuCursor.JumpEndsOnThePageExactlyWhen` | src/Menu/MenuCursor.cpp:54-70 | For every index, negative ones with the language's division included, the jump ends on the target page if and only if the index leaves no negative offset, or the rows that offset reaches back over are no more than the page has and none is selectable. |
| `MenuCursor.NegativeIndexCanMissThePage` | src/Menu/MenuCursor.cpp:54-70 | Index -1 of ten rows, five a page, lands on the page before the wanted one. |
| `MenuCursor.JumpBackReturnsToThePage` | src/Menu/MenuCursor.cpp:54-70 | Jumping forth and back returns to the page, wrapping included. |
| `MenuCursor.JumpBackReturnsToTheRowExactlyWhen` | src/Menu/MenuCursor.cpp:54-70 | With every row selectable it returns to the very row if and only if the page jumped to is long enough to have that offset. |
| `MenuCursor.PagesAreDivisions` | src/Menu/MenuCursor.cpp:54-60 | The page, the offset and the start of a page that the model counts off row by row are what the code divides and multiplies out. |
| `MenuCursor.PageCountIsCeiling` | include/VoltMod/Menu/MenuModel.hpp:13-17 | The page count is the rows divided by the page size, rounded up, and at least 1. |
| `MenuCursor.WrapIndexWraps` | include/VoltMod/Menu/MenuModel.hpp:19-23 | The double remainder wraps every value into range, negative ones included. |
| `Visibility.Service.OnCheckTransmit` | src/Hooks/Visibility.cpp:215-288 | Every recipient's set becomes the old set minus exactly the indices the hide rules name for that recipient, and rules of entities that are gone are dropped; with the recipient unreadable the sets stay as they were. |
| `Visibility.Service.SetPrivate` | src/Hooks/Visibility.cpp:174-185 | An entity never has two entries and the last call wins. |
| `Visibility.Service.ShowOnlyTo` | src/Hooks/Visibility.cpp:144-152 | Only a valid slot gets an entity to itself. |
| `Visibility.Service.ShowOnlyToTeam` | src/Hooks/Visibility.cpp:154-162 | Only a playing team does. |
| `Visibility.Service.HideFromTeam` | src/Hooks/Visibility.cpp:164-172 | An entity is kept from a playing team. |
| `Visibility.Service.ShowToEveryone` | src/Hooks/Visibility.cpp:187-190 | The entity's rule goes, and no other. |
| `Visibility.Service.OnSlotChanged` | src/Hooks/Visibility.cpp:104-111 | A slot that changes hands loses its hiding and the entities shown to it alone. |
| `Visibility.Service.Resolve` | src/Hooks/Visibility.cpp:218-223 | Every entry that stays holds the index its entity has now. |
| `Visibility.Collect` | src/Hooks/Visibility.cpp:67-99 | What is listed for a hidden player. |
| `Visibility.AddHandleVector` | src/Hooks/Visibility.cpp:32-51 | Both caps and the skipping of invalid handles. |
| `Visibility.ClearPlayers` | src/Hooks/Visibility.cpp:258-278 | The nested loops clear exactly what some listed player hides from this recipient. |
| `Visibility.HiddenPlayerReachesOnlySelfAndSpectators` | src/Hooks/Visibility.cpp:215-288 | Of those who were to receive them, a hidden player's pawn and what was listed with it still reach exactly the player itself and whoever spectates that pawn, and its controller exactly the player itself, unless something else names the index. |
| `Visibility.PrivateEntityReachesExactly` | src/Hooks/Visibility.cpp:202-213 | An entity whose index nothing else names reaches exactly the recipients its rule lets it. |
| `Visibility.HiddenPawnTakesAllExactlyWhen` | src/Hooks/Visibility.cpp:17-51 | Hiding a pawn takes all its live entities along if and only if they fit the two caps of 24. |

## Left out

- Engine, SDK and hook plumbing, logging, translations, message and HTML rendering: foreign calls and text.
- Network and database I/O (`Perform`, `OpenConnection`, SQL execution): steps that succeed or fail.
- The data race of a send that spawns a worker while Stop iterates over the workers: the model has the send past
  its unlocked check, not the torn vector.
- A listener of the vote's own events that ends the vote: the ballot being counted is then used after it is gone.
  One that starts a vote is refused, so it is not in the trees.
- The vote controller's absence: the model's panel always has one.
- The first-failure flag of the write cache: it only chooses what is logged.
- Visibility calls made by a screen entity when it spawns.
- A commit that changes the menu stack while it runs: what a commit or a row handler does there comes as later
  events. Commits that call back into the component that holds them are modelled.
- Menu breadcrumbs and row descriptions: rebuilt from the stack alone.
- The unknown-driver error of the Python renderer, and the rest of the Python command line.
- Idempotence of placeholder resolution: it does not hold, a resolved text can spell a placeholder again.
- What the history table's own creation leaves behind: a call that fails there has changed no row and run no file.
- MariaDB files that mix statements that commit by themselves with ones that do not: every statement of a file is
  taken to commit by itself there.
- A rollback that itself raises.
- Command registration, aliases, usage text and reply wording; the target token grammar and the duration grammar
  are parameters of the binder.
- Locale and Unicode rules of lower-casing: names are compared after ASCII lower-casing.
- Integer overflow of counters that the model shows bounded, and of ids it only numbers for the record.
- Vote.Service.Start: takes the roster's list in slot order, as the roster model proves it.
