# ACTA Gamma in Dafny

A model of the parts of ACTA Gamma that carry its guarantees: the SHA-256 that names contexts, the SQLite tables of
versioned models and skills, immutable contexts and executions, the runner that takes one execution through one LLM
call, and the sequential algorithms of the command line. SQLite is a set of maps from id to row in which every
statement is atomic; cJSON is a tree datatype. Code that changes things in place is a class or a method over arrays;
what it is proved against is a function or predicate beside it.

| files | what they model |
|---|---|
| `Fips180`, `Fips180Constants`, `Arith`, `Sha256`, `ContextHash` | FIPS 180-4 as a function, its constants; the streaming code; its callers |
| `Forest`, `FolderTable`, `SkillFolders`, `ModelFolders` | parent maps; the folder tables; the two bounded ancestor walks |
| `FolderClients` | any number of clients on a folder table, statement by statement |
| `Executions`, `Interleaving`, `Lifecycle`, `Columns` | the executions table; any number of clients on it; conservation and attempts; what each column holds |
| `Runner`, `Stamps`, `Sweep` | one runner process among others, exit hook included; stale rows |
| `Journal`, `Contexts`, `Request`, `Replay` | revision triggers; immutable contexts; the chat request; the whole database |
| `ExecutionClients` | creating executions while others change the database |
| `EditDistance`, `JsonText`, `Json`, `SchemaCheck` | suggestions; escaping; JSON trees; output schemas |
| `Sql`, `Query`, `Pages`, `Argv` | WHERE text and its meaning; queries; pages and --stream; command-line tokens |

`dafny verify dfyconfig.toml` checks everything.

## Promises the code does not keep in full

What holds instead, and exactly when, is stated below.

- Folder create: the foreign key on `parent_id` is checked when the INSERT is done, so a create that names the id it is
  about to be given is its own parent. Otherwise skill folders stay a forest.
- `acta_db/src/skill_folder.c` takes a chain of 4096 folders for a pathological case; at 4097 its walk misses a cycle.
- Model folders: the live-only walk does not see an ancestor behind a deleted folder.
- Folder moves: the ancestor walk and the UPDATE are separate statements, so two moves at a time can close a cycle. So
  are the checks and the UPDATE of a folder deletion: a live folder can come to lie below a deleted one.
- `acta_db_execution_create` promises that a deleted context receives no execution, but its INSERT does not check again.
- `move_to_folder` of a model or skill refuses a deleted folder; create and update only ask that it exists, restore asks
  nothing, and then a live item lies in a deleted folder.
- `acta_db_execution_reset` checks for deletion in its SELECT but not in its UPDATE.
- A runner's completion can end an attempt that another runner started, when the row was reset in between.
- `acta_db/src/model.c:137-143` and `acta_db/src/skill.c:89-96` speak of a trigger that protects revisions; the schema
  has none. Revisions stay because no function changes them.
- `run.c` calls unknown configuration keys a hard error; empty ones and those of 254 bytes or more pass. A negative
  temperature passes and is not sent.
- `schema_check` does not look below depth 32.
- `context list --stream --limit N` with N above 10000 stops after one page of 10000; without `--include_deleted` a
  deletion between two pages can make `--stream` miss a row, and a restore can make it repeat one.
- `cmd_args_flag`, asked for the value of a boolean flag, hands out the positional that follows.

## Model

| member | source | states |
|---|---|---|
| Sha256.Sha256Ctx.Init | acta_cli/src/sha256.c:85-97 | after init the message hashed so far is empty and the buffer invariant holds (state = fold over the full blocks, datalen = length mod 64, bitlen = 512 for each full block, modulo 2^64) |
| Sha256.Sha256Ctx.Expand | acta_cli/src/sha256.c:48-51 | m[0..63] is the message schedule of section 6.2.2 of FIPS 180-4 for the block |
| Sha256.Sha256Ctx.Mix | acta_cli/src/sha256.c:53-73 | the 64 rounds over a..h give the working variables of section 6.2.2 of FIPS 180-4 |
| Sha256.Sha256Ctx.Transform | acta_cli/src/sha256.c:44-83 | state becomes the compression of the old state with the block in the buffer; the buffer is untouched |
| Sha256.Sha256Ctx.Update | acta_cli/src/sha256.c:99-112 | the buffer invariant is kept and the message hashed so far grows by exactly the bytes given |
| Sha256.PushOpen | acta_cli/src/sha256.c:104-105 | one byte into a buffer that does not become full keeps the buffer invariant |
| Sha256.PushFull | acta_cli/src/sha256.c:106-110 | the byte that fills the buffer: after transform, bitlen + 512 and datalen = 0 the invariant holds for the longer message |
| Sha256.LengthField | acta_cli/src/sha256.c:135-143 | the eight shifted stores of bitlen are the 64-bit big-endian length of section 5.1.1 of FIPS 180-4 |
| Sha256.LastBlock | acta_cli/src/sha256.c:121-125 | with at most 55 bytes buffered, one more block of 0x80, zeros and length completes the padded message |
| Sha256.LastTwoBlocks | acta_cli/src/sha256.c:126-132 | with 56 or more bytes buffered, two blocks do: the two branches together build the one padding of the standard |
| Sha256.Sha256Ctx.Final | acta_cli/src/sha256.c:114-158 | for a message shorter than 2^64 bits the 32 bytes written are the digest of section 6.2 of FIPS 180-4 of everything fed in |
| ContextHash.Sha256OfChunks | acta_cli/src/sha256.c:85-158 | init, any sequence of updates (each shorter than 2^32 bytes), final: the digest depends on the concatenation only |
| ContextHash.Sha256Hex | acta_cli/src/commands/context.c:11-27 | 64 lower-case hexadecimal digits which, read back, are the bytes of the digest |
| Padding.ZerosIsLeast | acta_cli/src/sha256.c:118-135 | the number of zero bytes in the padding is the least that makes the length come out, as section 5.1.1 of FIPS 180-4 asks |
| Fips180.WordBytesRoundTrip | acta_cli/src/sha256.c:148-157 | words and their big-endian bytes convert back and forth without loss |
| Fips180.LeftmostFirst | acta_cli/src/sha256.c:48-49 | the leftmost of four bytes is the most significant of the word |
| Fips180.AddCounts | acta_cli/src/sha256.c:57-73 | addition counts: adding 0 changes nothing, adding y + 1 is one more than adding y |
| Fips180.ChChooses | acta_cli/src/sha256.c:24 | CH takes the bit of y where x has a one and that of z where it has a zero |
| Fips180.MajAgreesXY | acta_cli/src/sha256.c:25 | MAJ takes the bit on which its first two arguments agree |
| Fips180.MajAgreesXZ | acta_cli/src/sha256.c:25 | ... the bit on which its first and third agree |
| Fips180.MajAgreesYZ | acta_cli/src/sha256.c:25 | ... the bit on which its last two agree |
| Fips180Constants.KAsDerived | acta_cli/src/sha256.c:32-41 | k[n] is the first 32 bits of the fractional part of the cube root of the n-th prime |
| Fips180Constants.H0AsDerived | acta_cli/src/sha256.c:89-96 | the initial state is the same of the square roots of the first eight |
| Fips180Constants.PrimesInOrder | acta_cli/src/sha256.c:32-41 | these are the primes in order, none left out |
| Forest.BoundedWalkIsExact | acta_db/src/skill_folder.c:275-306 | on a parent map with at most `bound` rows, cyclic or not, a walk of `bound` steps finds a row exactly when it is on the chain |
| Forest.Repeats | acta_db/src/skill_folder.c:275-306 | pigeonhole: a chain with more entries than the table has rows repeats one |
| Forest.MoveIsSafeIff | acta_db/src/skill_folder.c:265-306 | re-parenting a row of a forest makes a cycle exactly when the row is the new parent or one of its ancestors |
| Forest.AddIsSafeIff | acta_db/src/skill_folder.c:164-194 | a new row closes a cycle exactly when it is its own parent |
| FolderTable.FolderStore.Create | acta_db/src/skill_folder.c:164-194 | table and code after create: empty name, name clash (deleted rows included), missing parent, or one new live row under a fresh id |
| FolderTable.FolderStore.Rename | acta_db/src/skill_folder.c:196-228 | table and code after rename: only the name of one live row changes |
| FolderTable.FolderStore.Delete | acta_db/src/skill_folder.c:340-415 | table and code after soft_delete: refused with live children or live contents, else only the mark changes |
| FolderTable.CreateKeepsForestIff | acta_db/include/schema_sql.h:102-110 | create keeps the parent relation acyclic exactly when it does not name the id AUTOINCREMENT is about to give (the foreign key is checked after the INSERT) |
| FolderTable.CreateKeepsNames | acta_db/src/skill_folder.c:164-194 | create keeps names unique under a parent, soft-deleted rows counted |
| SkillFolders.CycleWalk | acta_db/src/skill_folder.c:275-306 | the loop answers whether the moved folder is among the first 4096 entries of the chain |
| SkillFolders.MoveTo | acta_db/src/skill_folder.c:230-338 | table and code after move_to, all refusals included, in the order of the code |
| SkillFolders.Undelete | acta_db/src/skill_folder.c:417-444 | table and code after restore: a live row is refused |
| SkillFolders.WalkIsExact | acta_db/src/skill_folder.c:230-306 | on at most 4096 rows move_to refuses exactly the moves that would close a cycle, through deleted folders as well |
| SkillFolders.StepKeepsForestIff | acta_db/src/skill_folder.c:164-444 | each of the five operations keeps the forest except a create that names its own id |
| SkillFolders.StepKeepsNames | acta_db/src/skill_folder.c:164-444 | every operation keeps them unique, restore and move included |
| SkillFolders.EveryRunIsForestIff | acta_db/src/skill_folder.c:164-444 | over every run from the empty table, on at most 4096 rows: every parent id is always that of a row, no two rows, deleted or not, have one name under one parent, and the parents form a forest throughout if and only if no create names the id it is given |
| SkillFolders.SelfParentRun | acta_db/src/skill_folder.c:164-194 | the condition is needed: the first create under id 1 is accepted and is its own parent |
| SkillFolders.WalkBoundIsTight | acta_db/src/skill_folder.c:275-306 | 4096 is the limit: on a chain of 4097 folders the walk stops one short and the move closes a cycle |
| SkillFolders.InterleavedMovesCanClose | acta_db/src/skill_folder.c:230-338 | walk and UPDATE are separate statements: two clients, each passing its walk, close a cycle (when exactly: FolderClients) |
| ModelFolders.AncestorReaches | acta_db/src/model_folder.c:270-294 | the loop answers whether the target is among the first 10000 entries of the chain of live folders |
| ModelFolders.MoveTo | acta_db/src/model_folder.c:296-391 | table and code after move_to, the same-parent shortcut included |
| ModelFolders.Undelete | acta_db/src/model_folder.c:237-264 | table and code after restore: any existing row, no look at its parent |
| ModelFolders.MoveKeepsForestIff | acta_db/src/model_folder.c:270-391 | on at most 10000 rows a move that is carried out closes a cycle exactly when the folder is above the new parent through a deleted folder only |
| ModelFolders.NothingHidden | acta_db/src/model_folder.c:270-294 | where no live folder lies below a deleted one the live-only walk is exact |
| ModelFolders.StepKeepsClosure | acta_db/src/model_folder.c:93-391 | every operation keeps that closure, as long as create and restore name a live parent or none |
| ModelFolders.StepKeepsForestIff | acta_db/src/model_folder.c:93-391 | an operation breaks the forest exactly in the two ways named by ClosesCycle |
| ModelFolders.EveryRunIsForestIff | acta_db/src/model_folder.c:93-391 | over every run from the empty table, on at most 10000 rows: every parent id is always that of a row, no two rows, deleted or not, have one name under one parent, and the parents form a forest throughout if and only if no step closes a cycle in one of those ways |
| ModelFolders.EveryCarefulRunIsForest | acta_db/src/model_folder.c:93-391 | every run whose creates and restores leave no live folder below a deleted one stays a forest |
| ModelFolders.CarelessRestoreRun | acta_db/src/model_folder.c:237-264 | the hypothesis is needed: A, B under A, C under B, delete C, delete B, restore C, move A under C ends in a cycle |
| FolderClients.WriteKeepsForestIff | acta_db/src/skill_folder.c:308-338 | the UPDATE of move_to, whatever its SELECTs saw: on a forest of any size the result is a forest exactly when nothing was changed or the row is neither the new parent nor above it by then |
| FolderClients.StatementKeepsForestIff | acta_db/src/skill_folder.c:164-444 | of all statements of all calls on skill or model folders only two can close a cycle: that UPDATE when it fires under a present descendant, and a create that names the id it is given; each then does |
| FolderClients.EveryInterleavingIsForestIff | acta_db/src/skill_folder.c:164-444 | any number of clients, interleaved statement by statement, the single SELECTs of the walks included, tables of any size: parent ids exist and names are unique throughout, and a forest throughout if and only if no UPDATE fires under a present descendant and no create names its own id |
| FolderClients.MoveAlone | acta_db/src/skill_folder.c:230-338 | the statements of move_to run with nobody in between do exactly what the whole call does |
| FolderClients.OtherCallsAlone | acta_db/src/skill_folder.c:164-444 | so do those of create, rename, restore and soft_delete, the last refused when its folder is in use |
| FolderClients.StatementKeepsClosureIff | acta_db/src/model_folder.c:159-264 | a statement leaves a live folder below a deleted one exactly when it marks a folder that has a live child by then, or creates, restores or moves a live folder under a deleted one |
| FolderClients.EveryInterleavingIsClosedIff | acta_db/src/model_folder.c:93-391 | over every interleaving: no live folder ever lies below a deleted one if and only if no statement does that |
| FolderClients.OneMoverKeepsForest | acta_db/src/skill_folder.c:230-338 | what suffices, all other calls interleaved at will: one client at a time between walk and UPDATE, no self-naming create, at most 4096 skill folders; for at most 10000 model folders also no live folder coming to lie below a deleted one and nobody deleting the new parent of a move under way |
| FolderClients.DeletedTargetCloses | acta_db/src/model_folder.c:270-391 | that last condition is needed: the new parent is deleted during the walk, which ends at once, and restored before the UPDATE, which closes a cycle |
| Executions.ExecutionStore.Perform | acta_db/src/execution.c:182-213 | the SELECTs and the guarded UPDATE that the interleavings take one by one, run together, are one atomic call: refused as the first failing check says, else the row changed |
| Executions.ExecutionStore.Start | acta_db/src/execution.c:511-541 | SELECT and guarded UPDATE together are one atomic start: from pending only, deleted or not |
| Executions.ExecutionStore.Cancel | acta_db/src/execution.c:543-580 | the two SELECTs and the UPDATE together are one atomic cancel: from pending or running |
| Executions.ExecutionStore.Complete | acta_db/src/execution.c:582-613 | one atomic complete: from running only |
| Executions.ExecutionStore.Fail | acta_db/src/execution.c:615-646 | one atomic fail: from running only |
| Executions.ExecutionStore.Reset | acta_db/src/execution.c:648-714 | one atomic reset: from a live failed row, to pending with error, raw response and both stamps cleared and nothing else changed |
| Executions.ExecutionStore.Delete | acta_db/src/execution.c:720-785 | one atomic delete: live rows that are not running |
| Executions.ExecutionStore.Restore | acta_db/src/execution.c:791-819 | one atomic restore: deleted rows only |
| Executions.ExecutionStore.SetRawResponse | acta_db/src/execution.c:821-845 | no status guard: any existing row |
| Executions.UpdateKeepsRows | acta_db/src/execution.c:511-845 | no UPDATE leaves result, error or stamps at odds with the status, or touches status and result of a completed or cancelled row |
| Interleaving.EveryInterleavingIsExplained | acta_db/src/execution.c:511-819 | under every interleaving of any number of clients the rows are what the calls that returned OK give one after another in UPDATE order, each legal where it stands and, except a reset of a row deleted meanwhile, as if run alone; the other calls change nothing |
| Interleaving.GuardedUpdateIsLegal | acta_db/src/execution.c:182-213 | an UPDATE that reports a changed row found a status it is legal from, whatever its earlier SELECT saw |
| Interleaving.EveryReachableRowIsOk | acta_db/src/execution.c:386-819 | in every reachable state: result only if completed, error only if failed, pending means no start or completion stamp |
| Interleaving.TerminalRowsStay | acta_db/src/execution.c:511-819 | once completed or cancelled, a row keeps status and result in every continuation |
| Interleaving.StaleResetHappens | acta_db/src/execution.c:648-714 | the exception is real: a reset whose row is deleted between its SELECT and its UPDATE goes through |
| Interleaving.AloneIsAtomic | acta_db/src/execution.c:511-845 | in any state, a call whose statements nobody interrupts is that atomic call, and the history gains it with its client and code |
| Columns.EveryColumnIsItsLastWrite | acta_db/src/execution.c:386-845 | every row of every reachable state, column by column: status, raw response, result, error, start, completion and deletion stamp are what the last OK call that writes the column wrote (none after a reset for the four it clears), ids and created_at those of the INSERT; and there is such a row exactly when there was an INSERT |
| Columns.OkCallFindsItsStatus | acta_db/src/execution.c:511-845 | in every run a call that returned OK found its row in a status it is allowed from, read off the calls before it; no running row is deleted, no live one restored |
| Lifecycle.HistoryBalances | acta_db/src/execution.c:386-714 | counts over a legal history: starts = completes + fails + running cancels + [running]; 1 + resets = starts + pending cancels + [pending]; fails = resets + [failed]; completes = [completed]; cancels = [cancelled] |
| Lifecycle.EveryRowBalances | acta_db/src/execution.c:386-714 | these equations hold for every row in every state any interleaving reaches |
| Lifecycle.CompletesItsAttemptIff | acta_db/src/execution.c:511-613 | no attempt token: over every legal history, an OK complete after an OK start of the same row ends the attempt that start began if and only if no OK reset of the row lies between |
| Lifecycle.RunnerCompletesItsAttemptIff | acta_db/src/execution.c:511-714 | the same for one client that does both, in every run of any number of clients from the empty table; without a reset it still owns the attempt, with one it ends a later one |
| Lifecycle.FirstRunnerCompletesSecondAttempt | acta_db/src/execution.c:582-613 | a run of three clients in which it happens: client 0 starts, client 1 fails and resets, client 2 starts, client 0 completes attempt 2, which client 2 owns |
| Runner.RunnerProcess.Invoke | acta_db/src/execution.c:182-213 | a call made by a runner while others act: it overwrites no outcome, and a terminal call leaves its row out of running at its last statement |
| Runner.RunnerProcess.FailExecution | acta_runner/src/run.c:400-411 | the failed log row, then running to failed; the exit code given |
| Runner.RunnerProcess.CancelExecution | acta_runner/src/run.c:416-425 | the cancelled log row, then pending or running to cancelled; exit 14 |
| Runner.RunnerProcess.RunExecution | acta_runner/src/run.c:625-1307 | for every backend outcome and every interleaving: a row that was claimed is out of running at the last terminal call, completed and cancelled rows keep status and result; undisturbed: completed with exit 0 exactly when no poll is set, every stage goes on and the validation that applies passes; otherwise the first stage that stops decides, cancelled with 14 or failed with its code and message; the response is kept from the chat on, and one terminal log row comes last and says the same |
| Runner.OutcomeIsFirstStop | acta_runner/src/run.c:655-1307 | the outcome of a run is that of the first of its nine stages that does not go on |
| Runner.RunnerProcess.AfterClaim | acta_runner/src/run.c:692-1179 | from the claim to the chat request: whichever stage stops, the run is ended once, as that stage says |
| Runner.RunnerProcess.AfterChat | acta_runner/src/run.c:1180-1307 | from the response to the end: raw response stored, validated, completed with result = raw response |
| Runner.RunnerProcess.DeathmarkClaim | acta_runner/src/deathmark.c:29-33 | the marker names the row just claimed |
| Runner.RunnerProcess.DeathmarkRelease | acta_runner/src/deathmark.c:35-39 | the marker is cleared, when nothing claimed is running any more |
| Runner.RunnerProcess.ExitPath | acta_runner/src/deathmark.c:41-81 | an exit in a single-process run fails exactly the marked row if it is running, with the message and log row of the code, and then no claimed row is running |
| Runner.ExitAnywhereClears | acta_runner/src/deathmark.c:41-81 | that holds at every moment of every undisturbed run, a --pending batch included |
| Runner.RunnerProcess.RunPending | acta_runner/src/run.c:282-295 | a whole --pending batch, others acting at will: every row newly claimed is out of running after the last statement of its own last terminal call, and the exit code is the greatest; undisturbed, each listed row ends as its own run says, no other row changes, nothing claimed stays running |
| Runner.RunnerProcess.CmdRunPending | acta_runner/src/run.c:241-296 | the same from the query on: the rows run are the first --max pending live rows in id order, others acting before and after it |
| Runner.PendingPage | acta_runner/src/run.c:241-256 | the page listed holds rows that can be run, each once |
| Runner.ExitLeavesRunningIff | acta_runner/src/deathmark.c:41-81 | which rows a clean exit leaves running: of any set of rows some is left exactly when one of them is running and is not the one the marker names |
| Runner.ExitBeforeClaimOrphans | acta_runner/src/run.c:683-692 | so between start() and deathmark_claim an exit leaves any row just started running |
| Stamps.StampOrder | acta_runner/src/sweep.c:61-66 | strcmp on two fixed-width stamps is the order of the instants, in seconds of the Gregorian calendar |
| Stamps.YearStartIs | acta_runner/src/sweep.c:61-66 | the calendar behind those seconds: 365 days a year and one more every 4th, not every 100th, but every 400th year |
| Stamps.UnixEpoch | acta_runner/src/sweep.c:168-172 | 1970 begins 719528 days after year 0 |
| Sweep.OrderedIsSorted | acta_db/src/execution_log.c:67-79 | ORDER BY created_at, id gives the same stamps in order |
| Sweep.LastPageHoldsGreatest | acta_runner/src/sweep.c:89-104 | count, then only the last page of at most 10000: its last row is the greatest stamp, for any number of rows |
| Sweep.LastActivity | acta_runner/src/sweep.c:83-119 | last_activity is the greatest of started_at and the log stamps that were counted, also when rows with later stamps come in before the page is read; created_at when there is none, nothing when that is empty too |
| Sweep.LatestDecides | acta_runner/src/sweep.c:174-185 | comparing that one stamp with the threshold decides whether there was any activity since |
| Sweep.ActiveInTime | acta_runner/src/sweep.c:61-66 | with fixed-width stamps, a row is active exactly when a log row, its start or, without either, its creation is at or after the threshold in seconds |
| Sweep.ListRunning | acta_runner/src/sweep.c:155-167 | the query lists live running rows in id order; rows left out come later and only when 10000 are listed |
| Sweep.Sweeper.SweepOne | acta_runner/src/sweep.c:174-205 | one row, others updating, inserting and logging before the count and the page of its log, before the SELECT and the UPDATE of fail and before the INSERT of the log row: failed, with one log row, when it is not fresh and still running at both; else nothing changes |
| Sweep.Sweeper.Sweep | acta_runner/src/sweep.c:174-205 | the loop, with all that interference: each listed row is handled so, in turn, the three counters count the verdicts, no row is lost, completed and cancelled ones keep status and result; without interference exactly the listed inactive rows fail, the log gains exactly their rows, all others stay, and none is skipped |
| Sweep.Sweeper.CmdSweep | acta_runner/src/sweep.c:138-209 | query and loop together, others acting between them too |
| Sweep.ExactlyTheStale | acta_runner/src/sweep.c:155-205 | when the list is not cut off at 10000, the rows that change are exactly the live running ones without activity since the threshold |
| Journal.Store.Create | acta_db/src/model.c:145-183 | row, revision 1 and code after create; name clash before missing folder |
| Journal.Store.Update | acta_db/src/model.c:186-224 | row, revision if a field changed, and code after update; constraint failures are SQL for models, DUPLICATE or FK for skills |
| Journal.Store.SoftDelete | acta_db/src/skill.c:190-216 | the mark, and a revision that carries it |
| Journal.Store.Restore | acta_db/src/skill.c:218-255 | the mark goes, without a revision; a live row is a no-op |
| Journal.Store.MoveToFolder | acta_db/src/skill.c:257-306 | only into a live folder or the root; a revision if the folder changed |
| Journal.Store.Write | acta_db/include/schema_sql.h:75-99 | an UPDATE with the update and soft-delete triggers |
| Journal.StepKeeps | acta_db/include/schema_sql.h:69-99 | every call keeps the numbering and the current values, appends at most one revision, and changes nothing when refused |
| Journal.EveryRunIsKept | acta_db/include/schema_sql.h:151-179 | in every reachable state of every run each item's revisions are numbered 1..n, the last and the last live one carry its present fields, and n = creation + field-changing updates and moves + soft deletions |
| Journal.EveryRevisionIsItsCall | acta_db/include/schema_sql.h:75-99 | in every run, revision k of an item has the fields and the deletion mark that the k-th call noted for it wrote: the mark exactly for soft deletions |
| Journal.EveryItemIsItsLastCall | acta_db/include/schema_sql.h:75-99 | and the row has the fields of the last of these calls, deleted as the last deletion or restore left it |
| Journal.RevisionIsItsEntry | acta_db/src/model_revision.c:60-90 | the revision row fetched by id is the entry of its number in its owner's journal |
| Journal.RevisionsStay | acta_db/src/model.c:135-143 | no continuation of a run alters or removes a revision |
| Journal.LatestIsCurrent | acta_db/src/model_revision.c:127-160 | get_latest finds the present fields in every reachable state, live-only (models) or unfiltered (skills) |
| Request.CollectUnknown | acta_runner/src/run.c:887-902 | the buffer of 256 never overflows and is empty exactly when every unknown name is empty or 254 and more bytes long |
| Request.ReadConfiguration | acta_runner/src/run.c:844-906 | the configuration block: the first key of a wrong type, else the unknown names, else the four knobs |
| Request.UnknownKeyIsRefusedIff | acta_runner/src/run.c:881-906 | for each unknown name: every well-typed configuration that has it is refused exactly when the name has 1 to 253 bytes |
| Request.OverlookedKeyIsAccepted | acta_runner/src/run.c:896-902 | an unknown key that is empty or has 254 bytes or more is accepted in silence, with the default knobs |
| Request.BuildBody | acta_runner/src/run.c:1095-1133 | adding member by member gives the request body |
| Request.BodyReadsBack | acta_runner/src/run.c:1095-1133 | each part is read back from the body; temperature below 0 and top_k outside llamacpp are not there |
| Request.EnvelopeHolds | acta_runner/src/dialect.c:106-143 | each dialect's response_format holds the schema where that dialect looks for it, and not where the other does |
| Request.RequestIsBuiltIff | acta_runner/src/run.c:734-1000 | a request is built exactly when endpoint, backend, content, configuration, output schema and size all pass |
| Request.MessagesReadBack | acta_runner/src/run.c:1098-1108 | the last message is the user's, and before it there is the system message exactly when the prompt is not empty |
| Contexts.ContextStore.Create | acta_db/src/context.c:236-271 | one new live row, all others as they were |
| Contexts.ContextStore.Delete | acta_db/src/context.c:337-364 | only a live row, and only its mark |
| Contexts.ContextStore.Restore | acta_db/src/context.c:366-404 | only a deleted row, and only its mark |
| Contexts.OnlyTheMarkChanges | acta_db/include/schema_sql.h:196-208 | an UPDATE of a context row that changes type, content, hash or metadata changes nothing |
| Replay.ContextsNeverChange | acta_db/include/schema_sql.h:196-208 | over every run a context keeps type, content, hash and metadata |
| Replay.StepKeepsInputs | acta_db/include/schema_sql.h:196-208 | no operation on models, skills, folders, contexts or executions changes what an existing execution reads |
| Replay.RequestNeverChanges | acta_runner/src/run.c:698-1133 | once an execution exists, the chat request built for it, or the reason there is none, is the same in every later state; its references are always found |
| Replay.RequestFromInputs | acta_runner/src/run.c:698-760 | the request depends on context text, skill revision and live model revision only |
| Replay.RequestShows | acta_runner/src/run.c:698-1133 | the request, read off the rows the execution refers to: user message = context content, system message = skill prompt when there is one, model identifier, temperature, max_tokens and top_k as the configuration has them, the output schema where the dialect looks for it |
| Replay.ModelIsMissingIff | acta_db/src/model_revision.c:60-90 | over every run: refused for a missing model exactly when the model revision was written by a soft deletion |
| Replay.CreationIs | acta_db/src/execution.c:386-456 | what create answers in which case, and the row it inserts |
| Replay.EveryRunIsTidyIff | acta_db/src/model.c:145-224 | over every run: no live model or skill ever lies in a deleted folder if and only if no create, update or restore of one puts it there; deleting folders never does |
| Replay.FolderIsDeletedIff | acta_db/src/model_folder.c:159-235 | a folder is deleted exactly when it is live and neither a live folder nor a live model or skill lies in it |
| ExecutionClients.NewRefersToDeletedIff | acta_db/src/execution.c:386-456 | the context is looked at by a SELECT of its own: in every run of any number of clients, whatever happens between check and INSERT, the context of the inserted row is deleted exactly when the last change of its mark in between was a deletion |
| ExecutionClients.CheckedInsertAlone | acta_db/src/execution.c:386-456 | with nothing in between the two statements are the one create |
| ExecutionClients.RequestStays | acta_runner/src/run.c:698-1133 | under these interleavings too the request of an execution never changes |
| EditDistance.LevIsLeast | acta_cli/include/cli_util.h:486-514 | no chain of single-character edits from a to b is shorter than the distance |
| EditDistance.LevIsReached | acta_cli/include/cli_util.h:486-514 | a chain of exactly that length exists |
| EditDistance.EditIsNear | acta_cli/include/cli_util.h:501-511 | one edit, anywhere, changes the distance to any third string by at most one |
| EditDistance.Distance | acta_cli/include/cli_util.h:486-514 | the table of 64 by 64 gives the distance; 61 when a string is longer than 60 |
| EditDistance.BailOutIsHarmlessIff | acta_cli/include/cli_util.h:491-494 | the bail-out changes nothing for any input exactly when the name has at most 58 characters |
| EditDistance.ClosestName | acta_cli/include/cli_util.h:519-533 | the first name at least distance within its limit, for any input; by true distance when the names have at most 58 characters |
| JsonText.JsonStr | acta_cli/include/cli_util.h:124-142 | the bytes written are a JSON string of section 7 of RFC 8259 whose value is the input, and none is below 0x20 |
| JsonText.RoundTrip | acta_runner/include/runner_util.h:123-141 | reading back what was written gives the input and stops where the string ends |
| JsonText.NoControl | acta_runner/include/runner_util.h:123-141 | no byte below 0x20 is written |
| JsonText.RecordIsOneLine | acta_runner/include/runner_util.h:143-172 | an error record has its one newline at the end, and its message is read back as given |
| JsonText.FinishDbError | acta_runner/include/runner_util.h:150-172 | the record names the code, an unknown one as ERR_INVALID, and the exit code matches |
| JsonText.DecimalReadsBack | acta_runner/include/runner_util.h:167-168 | the code written reads back as the code |
| SchemaCheck.Check | acta_runner/src/run.c:552-612 | schema_check terminates and answers the meaning of type, required, properties and items looked at 33 levels deep |
| SchemaCheck.FewerLevelsAcceptMore | acta_runner/src/run.c:556-557 | the limit only forgets constraints: a conforming value is never rejected |
| SchemaCheck.EnoughLevelsAreExact | acta_runner/src/run.c:552-612 | where the schema's nesting fits, exactly the conforming values are accepted |
| SchemaCheck.ChecksTheTruncated | acta_runner/src/run.c:552-612 | for every schema and value: accepted exactly when the value conforms to the schema cut off at that depth |
| SchemaCheck.ChainIsSeenIff | acta_runner/src/run.c:556-557 | a violation k levels down is found exactly when more than k levels are looked at |
| SchemaCheck.DepthLimitAccepts | acta_runner/src/run.c:556-557 | so one 33 levels down is accepted |
| SchemaCheck.TypeKeyword | acta_runner/src/run.c:528-541 | what each of the seven type names accepts, integer exactly the whole numbers; any other name accepts everything |
| SchemaCheck.RequiredKeyword | acta_runner/src/run.c:568-583 | required asks of an object that each name listed is there |
| SchemaCheck.PropertiesKeyword | acta_runner/src/run.c:584-597 | properties asks of each member that is there that it conforms |
| SchemaCheck.ItemsKeyword | acta_runner/src/run.c:598-610 | items asks it of each element of an array |
| Query.WhereAppend | acta_db/src/execution.c:108-118 | one clause more, or -1 exactly when it does not fit |
| Query.ExecBuildWhere | acta_db/src/execution.c:124-148 | the text of the clauses of the set fields in order, and their number; 200 bytes are enough |
| Query.ExecBindWhere | acta_db/src/execution.c:150-161 | the values of the set fields in the same order |
| Query.ExecTextSelects | acta_db/src/execution.c:124-161 | the text, read as SQL, has one placeholder for each bind and selects exactly the rows that match all set fields |
| Query.ExecStatements | acta_db/src/execution.c:246-261 | the whole statements fit their buffers of 600 and 500 for every query |
| Query.CtxBuildWhere | acta_db/src/context.c:110-143 | the context clauses, whichever of them opens the WHERE |
| Query.CtxTextSelects | acta_db/src/context.c:110-230 | the text has one placeholder for each bind and selects exactly the matching contexts |
| Query.CtxStatements | acta_db/src/context.c:145-204 | select and count fit 512 and 256; OFFSET has a placeholder exactly when it has a bind |
| Query.StatusNames | acta_db/src/execution.c:124-161 | each of the five status names selects the rows of that status |
| Sql.WhereRoundTrip | acta_db/src/execution.c:124-148 | reading the text word by word gives back the clauses in order |
| Pages.ExecutionPage | acta_db/src/execution.c:223-310 | a page of executions is the rows that match the query struct, in id order from offset, at most the clamped limit |
| Pages.FirstPageHolds | acta_db/src/execution.c:223-310 | a first page holds matching rows only, each once, in id order; a matching row that is not on it comes later, and then the page is full |
| Pages.ContextPage | acta_db/src/context.c:413-472 | a page is the matching rows in id order from offset, at most the clamped limit |
| Pages.Stream | acta_cli/src/commands/context.c:650-679 | --stream over tables that change at will between its pages terminates; with limit 0 it emits, page after page from where the one before ended, what each page finds, until one is empty, which is all that the last page finds when matching rows only gain rows at the end; with a limit, one page of at most 10000 |
| Pages.IncludedDeletedGrows | acta_db/include/schema_sql.h:196-208 | with --include_deleted the matching rows do only gain rows at the end: contexts keep type and hash, new ids are greater |
| Pages.ChangeEmits | acta_cli/src/commands/context.c:657-676 | when the rows found change once, after any number of pages: what lay before the next position, then all that lies behind it afterwards, unless a page was already empty |
| Pages.DeletionSkipsIff | acta_cli/src/commands/context.c:657-676 | without it, for any table and filter: when a found row is deleted after any number of pages, the loop still emits every other row asked for exactly when the deleted one lies at or behind the next page, or nothing was left to emit |
| Pages.DeletionSkips | acta_cli/src/commands/context.c:657-676 | inputs that fail: of any number of contexts above 10000 the first is deleted after one page, and another is not emitted |
| Pages.RestoreRepeatsIff | acta_cli/src/commands/context.c:657-676 | when a deleted row comes back after any number of pages, the loop emits some row twice exactly when no page was empty yet and the last row emitted has a greater id than the restored one |
| Pages.StreamMeetsItsLimitIff | acta_cli/src/commands/context.c:657-676 | the limit asked for is met exactly when it is within a page or no more than a page of rows is left |
| Db.ClampLimit | acta_db/include/internal.h:146-151 | a limit from 1 to 10000 is kept, any other becomes exactly 10000 |
| Argv.FlagHasValue | acta_cli/src/argparse.c:303-309 | the first table entry of the name decides; unknown names take a value |
| Argv.CmdArgs.NextPositional | acta_cli/src/argparse.c:311-332 | the next positional and the rest after it: a token that is neither a flag nor the value of one |
| Argv.CmdArgs.CountPositionals | acta_cli/src/argparse.c:334-346 | how many there are from pos |
| Argv.CmdArgs.KthPositional | acta_cli/src/argparse.c:348-364 | the k-th of them, or none |
| Argv.CmdArgs.TakeAll | acta_cli/src/argparse.c:311-364 | asking for the next until there is none yields as many as are counted, each the one indexed |
| Argv.CmdArgs.Validate | acta_cli/src/argparse.c:387-423 | accepts exactly when every flag is in the table and has its value when it takes one |
| Argv.AcceptedPartition | acta_cli/src/argparse.c:311-423 | accepted tokens are flags, values and positionals; flags written apart from their value and values correspond one to one, nothing is left over |
| Argv.CmdArgs.GetFlag | acta_cli/src/argparse.c:426-454 | the first token of the name decides: inline part, following token, or nothing |
| Argv.FirstTokenDecides | acta_cli/src/argparse.c:426-454 | written out: of the first token that is --name or --name=..., the text behind the equals sign, else the next token unless it begins with -- |
| Argv.BooleanFlags | acta_cli/src/argparse.c:259-301 | the flags that take no value are all, count, deleted, full, include_deleted, sql_stdin and stream |
| Argv.FlagGivesItsOwnValueIff | acta_cli/src/argparse.c:426-454 | over all command lines the value is the flag's own and never a positional exactly when the name takes a value |
| Argv.GivenValueIsFound | acta_cli/src/argparse.c:387-454 | on an accepted command line a given value is always found |
| Argv.ApplyFlagAliases | acta_cli/src/argparse.c:372-377 | every --deleted token, and no other, becomes --include_deleted |
| Argv.AliasesKeepRoles | acta_cli/src/argparse.c:366-377 | the rewriting changes no token's role and not whether the command line is accepted |

## Left out

- The GUI, help and usage text, table rendering, verbose logging, getters, row decoders and translations: display code.
- HTTP, sockets and timing: the backend's answer, the cancel flag and the checks on the rows fetched are arbitrary inputs of a run (`World`); the preflight before the claim is not modelled.
- The texts of error messages and the metadata of log rows; of the non-terminal log rows a run writes only the kinds are kept, the warning about a dialect override is not, and stages that fail before `context_loaded` are placed after it.
- An INSERT into execution_logs is taken to succeed; the code goes on when it fails.
- SQL errors, allocation failure, NULL handles and NULL struct fields: they return an error code before anything happens.
- SQLite itself (WAL, busy timeout, migration, backup) beyond atomic statements, AUTOINCREMENT, UNIQUE, foreign keys and triggers.
- Row timestamps other than the stamps of executions and log rows; `deleted_at` of folders, models, skills and contexts is a mark.
- 32-bit ids and counters: unbounded integers; in `sha256.c` the widths are modelled.
- `double` is `real`: NaN, infinities and casts of numbers beyond `long` are not modelled.
- cJSON parsing and printing: `parse` is an arbitrary function, the request is a tree.
- `path` and `errbuf` in schema_check: which violation is reported first is not stated.
- parse_globals, configuration files, database paths, permissions, environment variables and the API key.
- The folder, model and skill listers and the revision listers: they page like the modelled ones (skill folders without the clamp).
- Sweep.LastActivity: states its result for stamps of at most 31 characters, which is what its two buffers hold; CURRENT_TIMESTAMP gives 19.
- Sweep.Sweeper.SweepOne: which rows are fresh is stated for those stamps, and for others' log rows whose stamps are not before the ones there.
- Runner.RunnerProcess.ExitPath: stated with no other process acting; what interference can do to a single call is in `Interleaving`.
- Argv.CmdArgs.GetFlag: the caller's `has_value` is a parameter, not read from the table, as in the code.
- JsonText.RoundTrip: the reader knows no escapes beyond U+007F; the writer uses none.
