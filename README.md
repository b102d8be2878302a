# Agentic workflow template: the task store and its setup scripts, in Dafny

This project models the core of an agentic workflow template. The core has four parts.

**The task database** (`templates/tasks/db.js`):
- A SQLite table of tasks with an append-only history log.
- The lifecycle operations: add, update, claim, release, block, unblock and complete.
- Automatic unblocking of dependents when a task completes.
- The read-only queries: next task, counts and dependency tree.
- File-conflict detection, session assignment and greedy batching of ready tasks into parallel sessions.
- The model and review classifiers, and the size cap on stored artifacts.

**The command line** (`templates/tasks/cli.js`): its `--key value` flag parser and the id list accepted by `conflict-check`.

**The bootstrapper** (`bootstrap.js`): the values it derives from the interview answers, its `{{TOKEN}}` replacement table and its replacement pass.

**The upgrader** (`upgrade.js`):
- the defaults that complete the tokens extracted from an existing project;
- its replacement pass;
- the name of a backup copy.

The store is modelled twice:
- `TaskDb` gives it as a value, `Db(tasks, history, lastId)`: each write operation is a function from the old store to the new one, and the lemmas state what changes and what does not.
- `TaskStore.Store` is a class holding the same three fields, which its methods update in place. Each method's postcondition ties the new state to the `TaskDb` or `Scheduling` function, so every lemma about those functions holds of the class.

The loops of the source are methods with loop invariants, each proved equal to its specification function:
- `parseFlags`;
- the two `replaceTokens`;
- the history loop of `updateTask`;
- the `autoUnblockDependents` pass;
- the double loop of `conflictCheck`;
- the session scan of `assignTaskToSession`;
- the placement loops of `suggestBatch`.

The modules are:
- `Wrappers`: Option, Outcome and Result.
- `JsText` and `JsNumber`: the JavaScript string and number built-ins the code relies on.
- `CommaLists`: the comma-separated columns.
- `Tasks`: rows, typed updates, listing order.
- `TaskDb`, `Queries`, `Scheduling`, `Classifier`, `TaskStore`.
- `Cli`, `Bootstrap`, `Upgrade`.

The clock is a parameter, `Clock(iso, sql)`, holding the two renderings of "now" the source writes.

## Model

| member | source | states |
|---|---|---|
| `CommaLists.NullIfEmpty` | templates/tasks/db.js:291 | `x \|\| null` keeps the truthiness of its argument, keeps a truthy string as it is, and never yields an empty string, so no stored text value is `''` |
| `CommaLists.ParseFileList` | templates/tasks/db.js:492-493 | every parsed affected file is non-empty and carries no surrounding white space |
| `CommaLists.CountNonBlankIsFileCount` | templates/tasks/db.js:624 | counting the non-blank pieces of a split equals the length of the trimmed, empties-dropped list |
| `CommaLists.ParseIdList` | templates/tasks/db.js:704 | a parsed dependency list never contains 0 (`filter(Boolean)` drops zero and `NaN`) |
| `CommaLists.IdListRoundTrip` | templates/tasks/db.js:704-712 | a list of nonzero ids written with `join(',')` parses back to exactly the same ids |
| `CommaLists.Without` | templates/tasks/db.js:706 | the remaining ids are exactly the old ones other than `x`, and the list is strictly shorter when `x` occurred |
| `CommaLists.Overlap` | templates/tasks/db.js:494 | a file is in the overlap iff it is in both lists; never longer than the first list |
| `CommaLists.OverlapSymmetric` | templates/tasks/db.js:494 | the overlap of a with b holds the same files as that of b with a, and one is empty iff the other is |
| `CommaLists.OverlapOrder` | templates/tasks/db.js:494 | the overlap keeps the first list's order: a single file yields itself iff the other list has it, and the overlap of a concatenation is the concatenation of the overlaps |
| `JsNumber.ParseIntOfString` | templates/tasks/db.js:704 | `parseInt` reads back exactly the integer that `String` wrote |
| `JsText.ReplaceAllSubstitutes` | bootstrap.js:102 | `split(token).join(value)` replaces every occurrence of a non-empty token, scanning from the left |
| `Tasks.RankOrder` | templates/tasks/db.js:177 | the sort key orders CRITICAL before HIGH before MEDIUM before LOW, and no two priorities share a key |
| `Tasks.ApplyColumns` | templates/tasks/db.js:190-206 | one update sets its own column to its value and keeps every other column |
| `Tasks.Patch` | templates/tasks/db.js:196-199 | an update never changes the id, `created_at` or `updated_at` columns through its field list |
| `Tasks.PatchColumns` | templates/tasks/db.js:192-199 | a patch with distinct keys sets exactly the columns it names, each to its value, and keeps all others |
| `Tasks.ListingMembers` | templates/tasks/db.js:353-356 | a task query returns exactly the stored rows matching its `WHERE` clause; `getTasksBySession` matches its session id exactly, even an empty one |
| `Tasks.ListTasksMembers` | templates/tasks/db.js:147-175 | `listTasks` returns exactly the stored rows holding the given status, priority and each truthy string filter; an empty-string filter constrains nothing |
| `Tasks.ListTasksByStatus` | templates/tasks/db.js:152-155 | with only a status filter, as `autoUnblockDependents`, `suggestBatch` and `getDependencyTree` call it, `listTasks` is the query on that status |
| `Tasks.ListingOrdered` | templates/tasks/db.js:177 | the listing is strictly ordered by priority rank, then id |
| `Tasks.ListingDistinct` | templates/tasks/db.js:147-188 | no row appears twice in a listing |
| `TaskDb.ZeroToNull` | templates/tasks/db.js:129 | `n \|\| null` keeps a nonzero number and turns zero or absence into null |
| `TaskDb.AddTaskFacts` | templates/tasks/db.js:124-134 | a new task gets the next id and status `ready` even with dependencies, defaults to `MEDIUM` and `sonnet`, and nothing else changes |
| `TaskDb.UpdateTaskFacts` | templates/tasks/db.js:190-206 | an empty update changes nothing; otherwise exactly the named columns of that row change, `updated_at` is refreshed, and one `update_<column>` entry per key is logged, also for a missing id |
| `TaskDb.ClaimCheck` | templates/tasks/db.js:210-219 | the claim checks pass only for an existing task |
| `TaskDb.ClaimFacts` | templates/tasks/db.js:208-230 | a claim is refused without writes iff the task is missing, completed, held by another agent, or held by another session; otherwise it becomes `in_progress` for that agent and session, and the log gains the four column updates, then a `claim` entry for that task naming the agent, with `(session: s)` when a session is given, from the old status to `in_progress` |
| `TaskDb.ReleaseFacts` | templates/tasks/db.js:232-247 | a release fails only on a missing id, writing nothing; otherwise, whatever the prior status, the task becomes `ready` with the three claim fields null, no other row changes, and the log gains the column updates, then a `release` entry for that task naming the prior claimant (with its session when it had one), from `in_progress` to `ready` |
| `TaskDb.BlockFacts` | templates/tasks/db.js:263-272 | blocking fails only on a missing id; the task becomes `blocked` with the reason stored and its claim kept, and the log gains the column updates, then a `block` entry for that task with no agent, from the old status to `blocked` |
| `TaskDb.UnblockFacts` | templates/tasks/db.js:274-283 | unblocking fails only on a missing id; the task becomes `ready` with the reason cleared and its dependency list kept, and the log gains the column updates, then an `unblock` entry for that task with no agent, from `blocked` to `ready` |
| `TaskDb.Freed` | templates/tasks/db.js:705-710 | an id is freed iff a pending task lists `x` and nothing else |
| `TaskDb.FreeStepFacts` | templates/tasks/db.js:708 | freeing a task makes it `ready` with no dependency list and changes no other row |
| `TaskDb.ReduceStepFacts` | templates/tasks/db.js:712 | storing a reduced list keeps the task's status and changes no other row |
| `TaskDb.UnblockStepFacts` | templates/tasks/db.js:704-713 | one loop step touches only its own row: freed, or `x` struck from the list |
| `TaskDb.UnblockStepsFacts` | templates/tasks/db.js:702-715 | over the whole loop, pending rows naming `x` are rewritten as one step says, other rows are kept, and the returned ids are the freed ones in loop order |
| `TaskDb.UnblockStepLog` | templates/tasks/db.js:704-713 | a step logs nothing for a task not naming `x`; freeing a task logs the two column updates and then one `auto-unblock` entry for that task, old value `blocked`, new value `ready`; a reduced list logs only its `blocked_by` update |
| `TaskDb.AutoUnblockLog` | templates/tasks/db.js:709 | one entry per freed id, in order, each for that task with action `auto-unblock`, old value `blocked` and new value `ready` |
| `TaskDb.UnblockStepsLog` | templates/tasks/db.js:702-715 | the loop keeps the earlier log entries, and the `auto-unblock` entries it adds are one per freed task, in loop order |
| `TaskDb.FreedSorted` | templates/tasks/db.js:709 | the freed ids keep the order of the pending list |
| `TaskDb.PendingRows` | templates/tasks/db.js:701-704 | each pending entry is a blocked row with its parsed list, and no row is pending twice |
| `TaskDb.PendingCovers` | templates/tasks/db.js:701 | every blocked row of the store is pending |
| `TaskDb.PendingSorted` | templates/tasks/db.js:701 | the pending ids come in priority-then-id order |
| `TaskDb.AutoUnblockRows` | templates/tasks/db.js:700-716 | the log keeps its entries and gains one `auto-unblock` entry per returned id, in order; only blocked tasks naming `x` change; one left with no dependency becomes `ready` with `blocked_by` cleared, any other stays `blocked` with a list that reads back as the remaining ids |
| `TaskDb.AutoUnblockReturns` | templates/tasks/db.js:700-716 | the returned ids are exactly the blocked tasks that listed only `x`, in priority-then-id order |
| `TaskDb.CompletionWritesFacts` | templates/tasks/db.js:251-258 | the completion writes mark the task `completed` by the given agent or else its claimant, and the log gains the column updates, then a `complete` entry for that task naming that completer, from the old status to `completed` |
| `TaskDb.CompleteFacts` | templates/tasks/db.js:249-261 | completion fails only on a missing id; the task ends `completed`, and the list returned is exactly what the auto-unblock pass produced |
| `Queries.NextTaskFacts` | templates/tasks/db.js:462-480 | nothing is returned iff no task is ready with an empty `blocked_by`; otherwise the first eligible task by priority rank, then id |
| `Queries.RoundPercent` | templates/tasks/db.js:417 | the percentage is the completed share rounded to the nearest integer, halves up |
| `Queries.CountRowsPartition` | templates/tasks/db.js:395-399 | the four status counts add up to the total count |
| `Queries.CountRowsAll` | templates/tasks/db.js:395 | the total counts every row |
| `Queries.CountRowsBound` | templates/tasks/db.js:395-399 | a status count never exceeds the total |
| `Queries.RoundPercentBound` | templates/tasks/db.js:417 | the percentage is at most 100, exactly 100 when all are completed, and 0 when none are |
| `Queries.GetStatsFacts` | templates/tasks/db.js:391-419 | the four status counts add up to the total, which is the number of rows; the percentage is the completed share rounded to the nearest integer, 0 for an empty table or none completed, 100 when all are completed, never above 100 |
| `Queries.DepTree` | templates/tasks/db.js:556-583 | a visited id becomes a `(circular)` leaf; a missing task gives null; a present one is a node at its depth; no task is a full node twice, and none that was visited before |
| `Queries.DepForest` | templates/tasks/db.js:574-580 | the children grow the visited set, each appears once as a full node, and none was visited before (which children there are: `Queries.ForestComplete`) |
| `Queries.ForestChildren` | templates/tasks/db.js:575-578 | every child is a row whose dependency list names the parent, one level deeper |
| `Queries.Naming` | templates/tasks/db.js:575-577 | an id is named iff some row of the listing has that id and a dependency list naming the parent |
| `Queries.ForestComplete` | templates/tasks/db.js:574-580 | the children's ids are exactly the ids of the rows naming the parent, in listing order: a row of a stored task always yields a child, a node or a `(circular)` leaf |
| `Queries.AllRowsListed` | templates/tasks/db.js:573 | every stored task appears in the full listing with its own dependency list |
| `Queries.ListingRows` | templates/tasks/db.js:573-575 | each row of the full listing is a stored task with its own dependency list |
| `Queries.RootFacts` | templates/tasks/db.js:556-583 | a fresh tree's root is a node at depth 0 whose children name it; when every row is a stored task its children are exactly the rows naming it, in order; no task is a full node twice |
| `Queries.DependencyTreeFacts` | templates/tasks/db.js:556-583 | a missing task gives null; otherwise the root is the task at depth 0, a task is a child iff its `blocked_by` names the root, the children come in listing order, and no task is a full node twice |
| `Scheduling.Found` | templates/tasks/db.js:483-487 | the found tasks are exactly the existing ones among the given ids |
| `Scheduling.FoundOne` | templates/tasks/db.js:484-487 | one id yields its task if it exists and nothing otherwise |
| `Scheduling.FoundOrder` | templates/tasks/db.js:484-487 | the found tasks keep the order of the ids: the lookup of a concatenation is the concatenation of the lookups |
| `Scheduling.RowConflictsMembers` | templates/tasks/db.js:491-502 | the inner loop reports exactly the later tasks that share a file |
| `Scheduling.ConflictsUpToMembers` | templates/tasks/db.js:490-503 | the rows below `n` report exactly the overlapping pairs whose first index is below `n` |
| `Scheduling.ConflictsFacts` | templates/tasks/db.js:482-506 | a record is reported iff its pair i < j overlaps; it names the two tasks in input order; its files are exactly the first task's files the second also touches, and never empty |
| `Scheduling.ConflictPairs` | templates/tasks/db.js:490-503 | the double loop computes exactly the conflict list |
| `Scheduling.RowPairs` | templates/tasks/db.js:491-502 | the inner loop computes exactly task i's conflicts with the later tasks |
| `Scheduling.FirstConflictFacts` | templates/tasks/db.js:375-384 | the session scan finds nothing iff no other task of the session shares a file; what it finds is another task with its non-empty overlap |
| `Scheduling.AssignFacts` | templates/tasks/db.js:367-388 | a missing task or any overlap with another task of the session throws without writing; otherwise it is exactly `claimTask` for that session, so a success leaves the task held by the session and sharing no file with its other tasks |
| `Scheduling.CountIn` | templates/tasks/db.js:524 | the overlap count is at most the number of files, and 0 iff no file is in the session's set |
| `Scheduling.BestUpTo` | templates/tasks/db.js:520-529 | the scan picks a session with the fewest overlaps, the first such on a tie |
| `Scheduling.Place` | templates/tasks/db.js:531-532 | placing keeps the plan's shape: one task list and one file set per session |
| `Scheduling.PlanOf` | templates/tasks/db.js:513-533 | the plan has one task list and one file set per session |
| `Scheduling.PlaceFacts` | templates/tasks/db.js:520-532 | the task goes to the end of the least-overlapping session, the lowest index on a tie, whose file set gains its files; no other session changes |
| `Scheduling.NoOverlapGoesFirst` | templates/tasks/db.js:520-529 | a task with no overlap in session 0 goes to session 0 |
| `Scheduling.PlanPartition` | templates/tasks/db.js:513-533 | the sessions together hold every ready task exactly once (a permutation of the input) |
| `Scheduling.PlanFiles` | templates/tasks/db.js:513-533 | each session's file set is exactly the union of the files of its tasks |
| `Scheduling.FilelessAllFirst` | templates/tasks/db.js:520-529 | tasks with no files all land in session 0, in order |
| `Scheduling.PlanBatches` | templates/tasks/db.js:513-533 | the placement loops compute exactly the plan |
| `Scheduling.LeastOverlap` | templates/tasks/db.js:520-529 | the inner scan returns the first session with the fewest overlaps |
| `Scheduling.SuggestFacts` | templates/tasks/db.js:508-554 | it fails iff there are no sessions and some task is ready; otherwise it returns one batch per session, named `session-1` onwards, holding every ready task exactly once |
| `Scheduling.ClaimItemsValid` | templates/tasks/db.js:541-551 | the claims of `autoAssign` keep the table well formed |
| `Scheduling.ClaimBatchesValid` | templates/tasks/db.js:541-551 | the claims over all batches keep the table well formed |
| `Scheduling.ClaimRow` | templates/tasks/db.js:545 | one claim keeps the table well formed and every other row; the claimed row becomes `in_progress` for the agent and session when the claim checks pass, and is kept when they fail |
| `Scheduling.ClaimItemsFacts` | templates/tasks/db.js:544-549 | for distinct task ids, each task of the batch whose claim checks pass on the store before the pass becomes `in_progress`, held by the agent for the batch's session; one whose claim throws keeps its row, and so does every task not in the batch |
| `Scheduling.ClaimBatchesFacts` | templates/tasks/db.js:541-551 | for ids distinct across batches, each batch task whose claim checks pass becomes `in_progress` for the agent and its own batch's session; the others, and every task in no batch, keep their rows |
| `Classifier.FileCountIsFiles` | templates/tasks/db.js:624 | the classifiers' file count is the length of the parsed file list |
| `Classifier.InferModel` | templates/tasks/db.js:623-630 | the model is one of `haiku`, `opus` and `sonnet` |
| `Classifier.InferModelFacts` | templates/tasks/db.js:623-630 | `haiku` iff small or a fix title; else `opus` iff critical or five or more files; else `sonnet` |
| `Classifier.DimsJoin` | templates/tasks/db.js:636-642 | the comma list splits back into its dimensions, is never `none`, and is `qa` alone iff nothing was pushed |
| `Classifier.InferReviewsFacts` | templates/tasks/db.js:632-643 | `none` iff small; otherwise `qa`, plus `security` iff a security keyword occurs, plus `pm` iff a UX keyword occurs and the task is not a fix |
| `Classifier.EmptyKeywordMatchesAll` | templates/tasks/db.js:620 | an empty keyword in the template gives every task that is not small a security review |
| `Classifier.NoReviewsHaiku` | templates/tasks/db.js:623-643 | a task with no reviews is always given `haiku` |
| `Classifier.InferContextFiles` | templates/tasks/db.js:645-649 | the requirements summary is always read; the design system iff reviews are not `none`; the project overview iff they are neither `none` nor `qa` |
| `Classifier.ContextOfInferred` | templates/tasks/db.js:632-649 | on the classifier's own output, a small task reads only the summary, `qa` alone adds the design system, a security or product review adds the overview |
| `Classifier.KiloBytes` | templates/tasks/db.js:658 | the KB figure is the length divided by 1024, rounded to the nearest integer, halves up |
| `Classifier.Truncate` | templates/tasks/db.js:657-660 | content up to 51200 characters, empty or absent is stored as given; longer content keeps its first 51200 characters followed by the marker |
| `Classifier.TruncationFacts` | templates/tasks/db.js:657-660 | truncated content names at least 50 KB and starts with the first 51200 characters |
| `Cli.ParseFlags` | templates/tasks/cli.js:8-19 | the loop computes exactly the left-to-right flag reading |
| `Cli.FlagsKeys` | templates/tasks/cli.js:11-14 | every key is an argument starting with `--`, with its first `--` removed |
| `Cli.FlagsConcat` | templates/tasks/cli.js:8-19 | at a point that cannot serve as a value, the flags of a concatenation are the first part's overridden by the second's |
| `Cli.FlagPair` | templates/tasks/cli.js:13-15 | `--key value` sets the value; `--key` before another flag or at the end sets `true` |
| `Cli.LastWins` | templates/tasks/cli.js:14 | a repeated key keeps the last value |
| `Cli.BareArgument` | templates/tasks/cli.js:11 | an argument not starting with `--` and not taken as a value adds nothing |
| `Cli.SessionsFlag` | templates/tasks/cli.js:365 | the session count is never 0: the parsed flag when it is a nonzero number, else 2 |
| `Cli.AgentFlag` | templates/tasks/cli.js:367 | the agent is the `--agent` value when that is present and not empty (a bare `--agent` stays `true`), else `developer`; a text agent is never empty |
| `Cli.SuggestHintRoundTrip` | templates/tasks/cli.js:365-367 | the command line printed as the hint (cli.js:386) reads back as the same nonzero session count, `--assign` set, and the same agent |
| `Cli.ConflictCheckIds` | templates/tasks/cli.js:349-350 | the command refuses iff fewer than two nonzero ids parse; accepted ids are nonzero |
| `Cli.ConflictCheckRoundTrip` | templates/tasks/cli.js:349-350 | two or more nonzero ids written with commas are accepted as exactly those ids |
| `Bootstrap.KeywordsFor` | bootstrap.js:63-68 | the base keyword list, plus `, ` and the CMS answer unless it lower-cases to `none` or is empty |
| `Bootstrap.DeriveValuesFacts` | bootstrap.js:60-81 | skipped design answers give the placeholder, other answers pass through, and the keywords are the base list plus the CMS name |
| `Bootstrap.PlaceholderMismatch` | bootstrap.js:72 | the placeholder bootstrap.js writes differs from the one upgrade.js writes for the same skipped value |
| `Bootstrap.BuildReplacements` | bootstrap.js:83-97 | one pair per token, in insertion order, each keyed `{{NAME}}` |
| `Bootstrap.BuildReplacementsFacts` | bootstrap.js:83-97 | no token twice; eight values are the answers as typed, and the design and keyword values are the derived ones |
| `Bootstrap.ReplaceTokens` | bootstrap.js:99-105 | the loop computes exactly the pairs applied in order, each to the running result |
| `Bootstrap.ReplaceEachStep` | bootstrap.js:102 | each pass replaces every occurrence of its token in the running result, scanning from the left |
| `Bootstrap.ReplaceEachAbsent` | bootstrap.js:99-105 | content containing none of the tokens comes back unchanged |
| `Upgrade.LookupFacts` | upgrade.js:134-148 | a key is found iff some entry has it; with distinct keys, each entry is what its key finds |
| `Upgrade.Put` | upgrade.js:134-148 | assignment sets the key, keeps all other keys and their order, and adds at most one entry at the end |
| `Upgrade.DefaultTo` | upgrade.js:134-143 | `if (!tokens[k]) tokens[k] = v` keeps a truthy value, otherwise stores the default, and touches no other key |
| `Upgrade.DefaultTableFacts` | upgrade.js:134-143 | the defaults name the first ten tokens once each, in order, and only the project name can default to empty |
| `Upgrade.DefaultAll` | upgrade.js:134-143 | applying defaults keeps distinct keys and the existing keys' order |
| `Upgrade.DefaultAllFacts` | upgrade.js:134-143 | a key with no default is untouched; a key with one keeps a truthy value or takes its default |
| `Upgrade.FillDefaults` | upgrade.js:133-148 | the result keeps distinct keys and the extracted keys in their order |
| `Upgrade.FillDefaultsOthers` | upgrade.js:133-148 | tokens outside the eleven keep their extracted values, or stay absent |
| `Upgrade.FillDefaultsValues` | upgrade.js:134-143 | each of the first ten tokens keeps a truthy extracted value and otherwise takes its default |
| `Upgrade.FillDefaultsKeywords` | upgrade.js:144-148 | a missing or empty keyword list becomes the base list extended by the final CMS value unless it is `none` |
| `Upgrade.FillDefaultsTruthy` | upgrade.js:133-148 | every token ends truthy, except the project name when the directory's base name is empty |
| `Upgrade.NoCmsBaseKeywords` | upgrade.js:139-148 | with no CMS found, the CMS default `none` leaves the keywords at the base list |
| `Upgrade.ReplaceTokens` | upgrade.js:171-177 | the loop computes exactly the wrapped pairs applied in order, each to the running result |
| `Upgrade.ReplaceTokensAbsent` | upgrade.js:171-177 | a file with no `{{KEY}}` placeholder comes back unchanged |
| `Upgrade.TodayOfTimestamp` | upgrade.js:44 | the date is the part of the ISO timestamp before `T` |
| `Upgrade.Backup` | upgrade.js:46-53 | a path is returned iff the file exists; it is the file path followed by `.backup-` and the date, never the file path itself |
| `TaskStore.Store.constructor` | templates/tasks/db.js:25-51 | a new database has no rows and no history |
| `TaskStore.Store.AddTask` | templates/tasks/db.js:124-134 | the row is inserted as `TaskDb.AddTask` says, under the next id, with status `ready` |
| `TaskStore.Store.AddHistory` | templates/tasks/db.js:286-294 | one entry is appended to the log |
| `TaskStore.Store.UpdateTask` | templates/tasks/db.js:190-206 | the row is patched and one entry logged per update, as `TaskDb.UpdateTask` says |
| `TaskStore.Store.Claim` | templates/tasks/db.js:208-230 | the store changes and the outcome are as `TaskDb.Claim` says, and the store stays well formed |
| `TaskStore.Store.Release` | templates/tasks/db.js:232-247 | the store changes and the outcome are as `TaskDb.Release` says, and the store stays well formed |
| `TaskStore.Store.Block` | templates/tasks/db.js:263-272 | the store changes and the outcome are as `TaskDb.Block` says, and the store stays well formed |
| `TaskStore.Store.Unblock` | templates/tasks/db.js:274-283 | the store changes and the outcome are as `TaskDb.Unblock` says, and the store stays well formed |
| `TaskStore.Store.AutoUnblockDependents` | templates/tasks/db.js:700-716 | the pass over the blocked listing changes the store and returns the ids as `TaskDb.AutoUnblock` says |
| `TaskStore.Store.UnblockAll` | templates/tasks/db.js:703-715 | the loop over the pending tasks does exactly what the steps in order do |
| `TaskStore.Store.UnblockOne` | templates/tasks/db.js:704-713 | one loop body does exactly one step |
| `TaskStore.Store.Complete` | templates/tasks/db.js:249-261 | the store changes and the result are as `TaskDb.Complete` says, and the store stays well formed |
| `TaskStore.Store.ConflictCheck` | templates/tasks/db.js:482-506 | the result is exactly the conflict list of the found tasks |
| `TaskStore.Store.AssignTaskToSession` | templates/tasks/db.js:367-388 | the store changes and the outcome are as `Scheduling.Assign` says, and the store stays well formed |
| `TaskStore.Store.FindConflict` | templates/tasks/db.js:375-384 | the scan returns exactly the first other task sharing a file, with the shared files |
| `TaskStore.Store.ClaimItems` | templates/tasks/db.js:542-549 | the claims of one batch change the store as `Scheduling.ClaimItems` says |
| `TaskStore.Store.SuggestBatch` | templates/tasks/db.js:508-554 | the store changes and the batches are as `Scheduling.SuggestBatch` says, and the store stays well formed |

## Left out

- Persistence: SQLite, the `tasks.db` file and `saveDb` are not modelled. The store is the in-memory value of one connection.
- Schema migrations are not modelled. The table is the one `initializeSchema` creates.
- These other parts of db.js are not modelled:
  - the sessions table operations `startSession`, `endSession` and `getActiveSessions`;
  - `getHistory`, `getAgentStats`, `getStaleTasks` and `exportTasks`;
  - artifact storage and retrieval, except the truncation rule.
- cli.js is modelled only through `parseFlags`, the `conflict-check` id guard and the `--sessions`, `--assign` and `--agent` flags of `suggest-batch`. The console output, `process.exit` and the other commands are not modelled. Among them, `claim` with a bare `--agent` and no value passes `true` as the agent (cli.js:161), a case the model does not represent.
- `Scheduling.SuggestBatch`: takes the agent as a string. A bare `--agent` to `suggest-batch` passes `true` (cli.js:367); `Cli.AgentFlag` yields that value, but the claims made with it are not modelled.
- `Scheduling.ClaimBatchesFacts`: assumes the task ids are distinct within and across the batches. The batches of `suggestBatch` hold each ready task once (`Scheduling.SuggestFacts`), but the step from that to distinct ids is not proved.
- In bootstrap.js and upgrade.js, these are not modelled:
  - the interview prompts and project detection;
  - token extraction by regular expressions, before the defaults are applied;
  - directory traversal and reading and writing files;
  - the section-preserving merge in the upgrader.
- `Upgrade.Backup`: models only the name of the backup copy, not the copy.
- Time is a parameter. `Clock` stands for the current instant and `Today` for `TODAY`.
- Strings are sequences of code points. JavaScript measures length in UTF-16 code units, so lengths differ for characters outside the Basic Multilingual Plane. This affects the 100-character description test and the 51200-character artifact cap.
- `JsText.ToLower`: lower-cases ASCII letters only, not the full Unicode mapping of `toLowerCase`.
- `JsNumber.ParseInt`: uses unbounded integers. It does not model the loss of precision of JavaScript numbers beyond 2^53.
- `Queries.RoundPercent`: rounds the exact rational `100 * c / t` half up. The source rounds the double `(completed / total) * 100`, which can land just below an exact half. For 29 completed of 200 it gives 14.499999999999998 and so 14, where the model gives 15. Floating point is not modelled.
- `Upgrade.FillDefaultsTruthy`: requires a non-empty directory base name for `PROJECT_NAME`, because `path.basename` of a root path is empty and the token then stays falsy.
- `TaskStore.Store.AutoUnblockDependents`: parses every blocked task's dependency list before the loop instead of one per iteration. This is equivalent because the listing is taken before the loop and the loop only changes rows that were already read.
- `Queries.DepTree`: the source runs `listTasks` again at every node. The model uses one listing, which is the same because the tree walk writes nothing.
- `TaskDb.AddTaskFacts`: priority and status are typed, so a value outside the schema's `CHECK` lists cannot be expressed. Examples are `add --priority high` (cli.js:121 passes the flag unchecked) and `update 3 --status done` (cli.js:142). SQLite rejects these inserts and updates at db.js:126 and db.js:199 with a thrown error, and that error path is not modelled.
- `TaskDb.AddTaskFacts`: an omitted argument (`None`) always stands for `undefined`. An explicit `model: null` stores NULL in the source, because the default applies only to `undefined`, and that case is not represented.
- `TaskDb.BlockFacts`: the reason is always given. `blockTask(id)` with no reason would leave `fix_required` as it was, since db.js:192 drops undefined keys. The only caller, cli.js:188, always passes `flags.reason || 'Blocked'`.
- `TaskDb.CompleteFacts`: the summary is always given. `completeTask(id, undefined, agent)` would leave `completion_summary` as it was. The only caller, cli.js:179, always passes `flags.summary || 'Completed'`.
- Updates to columns outside the schema are not representable. `Tasks.Update` is typed by column, so a misspelt key, which SQLite would reject, is outside the model. `Tasks.Update` also has no case for five schema columns that `updateTask` (db.js:190-206) would accept: `id`, `parent_task_id`, `iteration`, `created_at` and `updated_at`. No caller in db.js or cli.js passes any of them to `updateTask`.

## Findings

| source | as written | input that shows it | evidently intended | confidence | as-written member | corrected member |
|---|---|---|---|---|---|---|
| bootstrap.js:72 (also 77) | the placeholder is `TBD ‚Äî fill in .claude/context/design-system.md`: the UTF-8 bytes of an em dash read back as Mac Roman, three characters `‚Äî` in place of one | brand colours (or fonts) answered `skip` | `TBD — fill in .claude/context/design-system.md`, with the em dash that upgrade.js:142-143 writes for the same missing value | not executed | `Bootstrap.PlaceholderMismatch` (on `Bootstrap.DeriveValuesAsWritten`) | `Bootstrap.DeriveValuesFacts` (on `Bootstrap.DeriveValues`) |
