# A verified model of Unpackerr's core

Unpackerr watches Starr queues and folders, extracts what was downloaded, tells webhooks
about it, and cleans up. This project models the parts of it that have hard invariants and
proves them in Dafny. `dafny verify dfyconfig.toml` checks the whole project.

| module | models |
|---|---|
| HistoryLog, HistoryRows, HistoryStore, HistoryExamples | the history rows in memory and the append-only file behind them (`pkg/unpackerr/historyfile.go`) |
| Lifecycle, LifecycleSteps, LifecycleSafety, LifecycleClock, LifecycleDeletions, LifecycleForgotten, LifecycleLoops | the life of a Starr item over polls, checks, callbacks, user actions, config changes and restarts |
| LifecycleRuns, ForgottenRun | runs of it, from the start, that lead where its promises end |
| LifecycleHistory | the two together: every run with the history file is a run of Lifecycle |
| FolderRetries | the retries of a watched folder |
| HookProtocol, HookSteps, HookMessageIds, HookCache | the main loop, the hook worker and the message-id cache, as interleaved steps |
| BlockScan, MdScan, ItemColumns | the scanner that leaves code blocks out of markdown, as functions and as the object it is, and its list items against CommonMark |
| BlockLines, BlockReading | what its lines are, said by their shape and by a look back, without its fields |
| InlineCode | the stripper of code spans |
| BraceMatch, JsPunct | the check for braces that break MDX, and its JavaScript-aware matcher, as functions and as loops over an object |
| RegexPlaces, ControlParens, JsLiterals, JsTables | where a slash starts a regular expression and where literals end, said without the matcher |
| BraceReading | what the matcher makes of any text, said without the matcher |
| BraceGrammar, BracePlain | which lines the check accepts, as a grammar |
| FileTree, PurgeEmpty, Remnants | a small file tree, the purge of empty directories, and the clearing of extraction remnants |
| LogTail, LogTee | backward paging of a log file, and splitting written bytes into lines |
| FreshName, TomlKey | the search for an unused name, and the printing of TOML keys |
| Sequences, Wrappers, Bytes | small shared definitions |

Each file says which source it follows. Where the program changes state step by step, a
class or a loop does the same and its contract ties the new state to a function of the old
one; what the program promises is then proved about those functions. Concurrency is a state
machine whose steps are those that no other thread can see half done.

## What the proofs found

These promises do not hold of the code as it is; each is proved with the exact condition
under which it does.

- A crash can bring back a durable row that memory had trimmed (`HistoryExamples.ReloadCanResurrect`);
  `HistoryLog.ReloadExact` says exactly when it does not.
- A restart keeps a title forgotten exactly when its flagged row is in memory at that moment
  (`LifecycleForgotten.RestartRemembers`). Forgetting flags the row exactly when it is in memory
  (`LifecycleForgotten.ForgetRemembered`), and a row that is later trimmed, deleted or cleared
  takes the flag with it. Without it the title comes back (`LifecycleForgotten.ForgottenComesBack`,
  reached by `LifecycleRuns.UnrememberedReached`). When the row was trimmed before, the file may
  still hold it as imported (`HistoryExamples.ForgottenRowReturns`), and then the files of a
  download that the user forgot in order to keep them are deleted (`ForgottenRun.ForgottenDeleted`).
- An imported item that comes back into the Starr queue is reset in memory but not in the
  history, so a restart makes it imported again with its first clock. An item has been
  imported ever since its clock exactly when no restart read it back that found it not imported
  (`LifecycleClock.ImportedSince`); otherwise its delete delay can be over in the second in which
  it becomes imported (`LifecycleRuns.ReturnDeletes`).
- Files can be deleted while the queue of a good poll holds the title. A row of an earlier
  version may name no app; when no instance has its url at a restart, the item is restored
  without one, and for such an item the queues are never looked at: it is in none
  (`pkg/unpackerr/apps.go:213-226`) and the snapshot counts as ready
  (`pkg/unpackerr/starrpoll.go:215-237`). A cleaner tick deletes an imported item whose time is
  over, whatever the instances hold, exactly when its app is unknown
  (`LifecycleDeletions.DeletesRegardless`); in every run that is so exactly when the last restart
  restored it from a row that names none, with a url that no instance had
  (`LifecycleDeletions.AppUnknownSince`). `LifecycleRuns.UnknownDeleted` is such a run for every
  row, instance and queue; in all other cases `LifecycleDeletions.DeletionsAreSafe` excludes it.
- The purge of empty directories returns how many it found empty, not how many it removed. The
  two numbers are equal exactly when every directory found empty could be removed
  (`PurgeEmpty.CountIsRemoved`, `PurgeEmpty.StuckIsCounted`).
- Renaming a remnant can put an earlier one back in the way. A blocker that counts as cleared
  is in the way again exactly when a later rename puts it back and no still later one takes it
  away (`Remnants.ClearedMeansGone`); so a restart can be ordered with a blocker in place
  (`Remnants.RestartFindsRoom`, `Remnants.RestartBlockedAgain`).
- `{/*/}` is accepted as a complete comment, because the closing `*/}` is searched from the
  opening brace. A removed comment is complete exactly when the line does not go on with
  `{/*/}` there (`BraceMatch.CommentComplete`, `BraceMatch.OverlappingComment`).
- After the head of a control statement a `/` is taken for a regular expression exactly when
  the statement does not stand inside the head of another one (`RegexPlaces.HeadThenLiteral`,
  `RegexPlaces.HeadInsideHead`).
- A run of `+` or `-` before a `/` is taken for `++` or `--` whenever it is longer than one;
  JavaScript reads it two at a time, so they differ exactly for odd runs of three and more
  (`RegexPlaces.SignRuns`).
- A list item with more than four columns of blanks after its marker gets the fourth as its
  content column when the blanks stop there; CommonMark 0.31.2 section 5.2 has it one past the
  marker. All other items with text agree (`ItemColumns.ItemColumn`, `ItemColumns.FiveBlanks`).
- A TOML key with U+007F is printed raw, which TOML v1.0.0 does not allow; every other key
  decodes to itself (`TomlKey.KeyRoundTrip`).

One condition the program always meets: a record without a start time would make memory and
file disagree (`HistoryExamples.UnstampedDiverges`), and an upsert keeps them in step exactly
when the record is stamped or the file is rewritten (`HistoryLog.UpsertedInv`). No caller sends
one, because `historyFromExtract` always sets the start time.

## Model

| member | source | states |
|---|---|---|
| HistoryLog.UpsertedInv | pkg/unpackerr/historyfile.go:421-461 | an upsert keeps "memory is the replayed file less its oldest durable rows, and the file has at most max(2*keep, rows) lines" exactly when the record is stamped or the file is rewritten |
| HistoryLog.StoredAgrees | pkg/unpackerr/historyfile.go:246-264 | merging the stored record into the replayed file stores the same row exactly when the record is stamped |
| HistoryLog.WithoutDrop | pkg/unpackerr/historyfile.go:246-300 | removing an id and trimming durable rows commute, up to how many are left to trim |
| HistoryLog.RunInv | pkg/unpackerr/historyfile.go:172-202 | every stamped run of upserts, deletes, clears, compactions, forgets, saved hook ids and crashes, from any file, keeps the invariant |
| HistoryLog.CrashLosesNothing | pkg/unpackerr/historyfile.go:172-300 | after such a run a crash and reload holds memory as a subsequence, the same in-flight rows, at most keep durable rows, and besides them only durable rows trimmed earlier; the file never exceeds max(2*keep, rows in memory) lines |
| HistoryLog.ReloadExact | pkg/unpackerr/historyfile.go:172-202 | a reload gives memory back unchanged exactly when memory is full of durable rows or the file holds no durable row that memory lacks |
| HistoryExamples.ReloadCanResurrect | pkg/unpackerr/historyfile.go:269-300 | a finished row that goes back to in-flight lets a trimmed row return: an instance |
| HistoryExamples.ForgottenRowReturns | pkg/unpackerr/historyfile.go:784-802 | a row that was trimmed before it was marked as forgotten is left unmarked in the file, and a reload brings it back as imported: an instance |
| HistoryExamples.UnstampedDiverges | pkg/unpackerr/historyfile.go:246-264 | a record without a start time leaves memory and file with different rows: an instance |
| HistoryLog.UpsertLosses | pkg/unpackerr/historyfile.go:421-461 | a row that memory lacks after an upsert was lacking before or is noted as trimmed |
| HistoryLog.RowsAreGoodLines | pkg/unpackerr/historyfile.go:205-243 | the rows read are those of the lines that parse, each once and in file order |
| HistoryLog.RowsOfConcat | pkg/unpackerr/historyfile.go:205-243 | reading a file is reading its parts one after the other |
| HistoryLog.BadLineSkipped | pkg/unpackerr/historyfile.go:205-243 | a line that does not parse, wherever it stands, changes neither the rows read nor what is loaded |
| HistoryRows.DurableExactly | pkg/unpackerr/historyfile.go:129-136 | durable is every status in which nothing is left to be done for an item |
| HistoryRows.MergeExactly | pkg/unpackerr/historyfile.go:246-264 | a record takes the place of the row with its id, or with its path when it has no id, goes to the end, and gets the old start time when it has none; all others stay in order |
| HistoryRows.CapExactly | pkg/unpackerr/historyfile.go:269-300 | a row is trimmed exactly when it is durable and at least as many durable rows as are kept come after it |
| HistoryRows.RowsOfRecords | pkg/unpackerr/historyfile.go:206-264 | after reading a file there is a row under an id exactly when some record had it |
| HistoryRows.LastWriteWins | pkg/unpackerr/historyfile.go:206-264 | and the row has the columns of the last record that had it |
| HistoryRows.DeletedExactly | pkg/unpackerr/historyfile.go:760-780 | the user deletes exactly a durable row, from memory and file; a row in flight or missing is refused and nothing changes |
| HistoryRows.TrimmedExactly | pkg/unpackerr/historyfile.go:269-300 | the rows that the crash theorem calls trimmed are exactly those that an upsert or a reload took out of memory |
| HistoryRows.NoLimit | pkg/unpackerr/historyfile.go:269-273 | without a limit nothing is trimmed and the file is never written again |
| HistoryStore.Store.MergeHistory | pkg/unpackerr/historyfile.go:246-264 | the loop that merges records by id is the fold whose last write wins and moves to the end |
| HistoryStore.Store.CapHistory | pkg/unpackerr/historyfile.go:269-300 | the trimming loop drops exactly the oldest durable rows over the cap |
| HistoryStore.Store.ReadHistoryRecords | pkg/unpackerr/historyfile.go:206-243 | every line is counted and every parseable row read, in file order |
| HistoryStore.Store.LoadHistory | pkg/unpackerr/historyfile.go:172-202 | the new state is the reload that the crash theorem speaks of |
| HistoryStore.Store.UpsertHistory | pkg/unpackerr/historyfile.go:414-461 | memory and file are those of the upsert that the invariant theorems speak of |
| HistoryStore.Store.CompactHistory | pkg/unpackerr/historyfile.go:483-506 | the file is one line for each row of memory, and memory is unchanged |
| HistoryStore.Store.DeleteHistoryID | pkg/unpackerr/historyfile.go:760-780 | an unknown id and an in-flight row are refused with nothing changed; else exactly that row goes, from memory and file |
| HistoryStore.Store.ClearHistory | pkg/unpackerr/historyfile.go:804-817 | exactly the in-flight rows stay, in memory and in the file |
| HistoryLog.BumpedRow | pkg/unpackerr/webhook.go:497-522 | hook message ids saved for an item that has left the map go into its own row, in memory and in the file; all other rows stay, nothing is trimmed, and without a row nothing changes |
| HistoryStore.Store.BumpHistoryHookMessage | pkg/unpackerr/webhook.go:497-522 | the loop writes again the first row with the id, and changes nothing when there is none |
| HistoryStore.Store.MarkHistoryForgotten | pkg/unpackerr/historyfile.go:784-802 | the row in memory is flagged as one more upsert; without a row nothing changes |
| LifecycleSteps.ChecksLookFirst | pkg/unpackerr/handlers.go:79-81 | in every run, a queue check that imports an item or drops it from the map finds it in no queue of its app, with its instance polled in this process or gone from the config, unless the last restart lost its app: an unpolled queue is never taken as empty |
| LifecycleSteps.CheckImportsExactly | pkg/unpackerr/handlers.go:71-117 | an item becomes imported exactly when it is past waiting and gone from the polled queues, and leaves the map exactly when it waits and is gone |
| LifecycleSteps.CheckOne | pkg/unpackerr/handlers.go:71-117 | an imported item that is in a queue again is extracted again, a later one waits again; all others stay |
| LifecycleSteps.NotedExactly | pkg/unpackerr/handlers.go:71-117 | the imports that the deletion theorem speaks of are exactly those made by queue checks |
| LifecycleSteps.TickDeletes | pkg/unpackerr/handlers.go:341-361 | a tick queues files for deletion of exactly the items that are imported, due, gone from the polled queues, and either to go as a whole or extracted with a delay that is not negative |
| LifecycleSteps.TickFailed | pkg/unpackerr/handlers.go:314-332 | a failed item is retried exactly when it may be, is below the limit and its delay is over; at the limit it is given up, else left alone |
| LifecycleSteps.TickOthers | pkg/unpackerr/handlers.go:333-361 | an item stuck for a day, or imported and due, is recorded as deleted; any other stays |
| LifecycleSteps.TickDone | pkg/unpackerr/handlers.go:306-311 | an item leaves the map exactly when it is deleted and its delay is over |
| LifecycleSteps.ReportExactly | pkg/unpackerr/handlers.go:368-457 | which report leads to which status, when retries are counted and when they end |
| LifecycleSteps.QueuedExactly | pkg/unpackerr/handlers.go:203-224 | an extraction starts only for a waiting item whose instance was polled or left the config, and is recorded |
| LifecycleSteps.RetryExactly | pkg/unpackerr/queue_actions.go:123-151 | a manual retry counts, clears the flag and is not recorded |
| LifecycleSteps.ForgetExactly | pkg/unpackerr/queue_actions.go:180-217 | exactly an ended item can be forgotten; its row is flagged if it is in memory |
| LifecycleSteps.AddedExactly | pkg/unpackerr/starrpoll.go:148-198 | a queue check adds exactly the titles that are not there, not forgotten and offered as complete, as the first instance that offers them brings them |
| LifecycleSteps.RestartExactly | pkg/unpackerr/historyrestore.go:42-128 | after a restart the map holds exactly the loaded rows that are not forgotten, three days old at most, neither finished nor waiting, and tell their app if they still need it; no instance counts as polled |
| LifecycleSteps.RestoredExactly | pkg/unpackerr/historyrestore.go:225-256 | work that was going on has failed and may be tried at once, what was queued waits, what was extracted has its time start anew, an import keeps its clock |
| LifecycleSteps.RestoredApp | pkg/unpackerr/historyrestore.go:287-298 | the app is that of the row, or else of the first of Sonarr, Radarr, Lidarr and Readarr with an instance at its url |
| LifecycleSteps.PollExactly | pkg/unpackerr/starrpoll.go:129-146 | a good poll replaces one queue and marks its instance polled, and a failed one changes no queue |
| LifecycleSteps.SweepExactly | pkg/unpackerr/queue_actions.go:224-241 | a sweep releases exactly the titles in no queue, and none before every instance was polled |
| LifecycleSteps.ConfigExactly | pkg/unpackerr/configput.go:714-735 | a config change loses no poll and makes none up: an instance that stays where it was has the poll and queue of one that was there, a new one counts as never polled |
| LifecycleSteps.HistoryExactly | pkg/unpackerr/historyfile.go:760-817 | what the user deletes or clears goes from memory and file, and with it every row that memory had trimmed |
| LifecycleDeletions.DeletionsAreSafe | pkg/unpackerr/handlers.go:340-361 | in every run, with failed polls, config changes and restarts: files are queued for deletion only by a cleaner tick, for an item that is imported, at least its delete delay after its clock; it has an app exactly unless the last restart lost it, and when it has one, no queue of that app holds the title and its instance was polled in this process or left the config; and from its clock to the tick it was imported in every state, exactly unless a restart read it back |
| LifecycleDeletions.DeletesRegardless | pkg/unpackerr/starrpoll.go:215-237 | a tick deletes the files of an imported item whose time is over, whatever the instances hold and whether they were polled, exactly when its app is unknown |
| LifecycleDeletions.KindIsUnknown | pkg/unpackerr/historyrestore.go:419-448 | a url tells an app exactly when some instance has it |
| LifecycleDeletions.RestartApp | pkg/unpackerr/historyrestore.go:287-298 | after a restart an item is without an app exactly when its row names none and no instance has its url |
| LifecycleDeletions.AppUnknownSince | pkg/unpackerr/historyrestore.go:287-298 | in every run an item is without an app exactly when the last restart restored it so and it has been in the map since; no other step takes an app away or adds an item without one |
| LifecycleClock.ImportedSince | pkg/unpackerr/handlers.go:71-106 | in every run an imported item was made so by a queue check at the time of its clock and has been so in every state since, exactly when no restart read it back that found it not imported |
| LifecycleClock.ImportedStep | pkg/unpackerr/handlers.go:71-106 | an item imported after a step was so before with the same clock, or a queue check made it so at that time, or a restart read it from its row |
| LifecycleClock.RestartImports | pkg/unpackerr/historyrestore.go:89-128 | after a restart a title is imported exactly when a loaded row says so, is not forgotten and not too old, with the clock of that row, which is its own when it was imported in memory |
| LifecycleSafety.NotQueued | pkg/unpackerr/starrpoll.go:200-257 | when nothing holds the title and the snapshot is ready, every queue that was looked at is that of a good poll of this process, so an unpolled queue is never taken as empty; for an item without an app both count as so whatever the queues hold |
| LifecycleSafety.RetriesBounded | pkg/unpackerr/handlers.go:300-332 | in every run no item and no row has more retries than the limit plus those that a user asked for on that item |
| LifecycleSafety.NoRetryStays | pkg/unpackerr/handlers.go:416-445 | once an item may not be retried, only a manual retry changes that, over restarts too |
| LifecycleForgotten.ForgottenStays | pkg/unpackerr/queue_actions.go:180-241 | a forgotten title whose row the history holds is out of the map after any polls, callbacks, ticks, config changes and restarts, until a sweep sees every queue without it |
| LifecycleForgotten.ForgottenWithinProcess | pkg/unpackerr/starrpoll.go:148-198 | within one process it stays out of the map whatever the history holds |
| LifecycleForgotten.ForgetRemembered | pkg/unpackerr/historyfile.go:784-802 | forgetting leaves a tombstone exactly when the row is in memory |
| LifecycleForgotten.RestartRemembers | pkg/unpackerr/historyrestore.go:42-66 | every restart, whatever trimmed rows it brings back, keeps the title forgotten exactly when its flagged row is in memory at the restart |
| LifecycleForgotten.ForgottenComesBack | pkg/unpackerr/historyrestore.go:42-66 | without one, a restart and a poll put the title back into the map |
| LifecycleRuns.UnrememberedReached | pkg/unpackerr/historyfile.go:760-780 | for every instance and title, a run from the start whose last step deletes the row of a failed download: the item can then be forgotten without a tombstone |
| ForgottenRun.ForgottenDeleted | pkg/unpackerr/queue_actions.go:180-217 | for every instance and restart time, a run from the start in which the user forgets an imported download whose row was trimmed, and a restart, a poll and a tick delete its files |
| LifecycleRuns.ReopenedDeletes | pkg/unpackerr/historyrestore.go:225-256 | whatever became of an item before a restart, when its loaded row says imported and its clock is old enough, the first good poll without it, or any good poll when its app is unknown, and a tick delete its files at the time of the restart |
| LifecycleRuns.UnknownDeleted | pkg/unpackerr/starrpoll.go:215-237 | for every imported and due row that names no app, every instance with another url and every queue that holds the title: a run from the start that deletes its files while that queue is the one of a good poll of this process |
| LifecycleRuns.ReturnDeletes | pkg/unpackerr/handlers.go:101-106 | for every instance, title and restart time, a run from the start: imported, back in the queue, restart, a poll without it, and its files are deleted in the second in which it became imported again |
| LifecycleHistory.RunRefines | pkg/unpackerr/historyfile.go:172-300 | every state of every run with the history file, records upserted in any order, is reached by a run of Lifecycle, and the rows that Lifecycle notes are those that the file gives back |
| LifecycleHistory.StepRefines | pkg/unpackerr/historyfile.go:414-461 | one step with the file is one step of Lifecycle, enabled there, and then one trim step for each row that the history trimmed |
| LifecycleHistory.OutcomeBehind | pkg/unpackerr/historyfile.go:269-300 | right after a step the rows that Lifecycle notes too many are durable, and memory is full of durable rows |
| LifecycleHistory.ReloadEnabled | pkg/unpackerr/historyfile.go:172-202 | what a reload of the file brings is what the restart step of Lifecycle allows |
| LifecycleHistory.SystemSound | pkg/unpackerr/historyfile.go:304-308 | what every run of Lifecycle keeps holds in every run with the file |
| LifecycleSafety.EveryRunKeeps | pkg/unpackerr/configput.go:714-735 | every run keeps the whole invariant: forgotten titles are not in the map, an instance that counts as polled carries a queue polled in this process, rows are at least as strict as items |
| LifecycleSafety.InstancesGrow | pkg/unpackerr/starrpoll.go:148-198 | a queue check changes no item that is there and adds only fresh waiting ones under titles not forgotten |
| LifecycleLoops.HaveQitem | pkg/unpackerr/apps.go:213-226 | true exactly when some instance of the app holds a record of the title |
| LifecycleLoops.QueueSnapshotReady | pkg/unpackerr/starrpoll.go:218-257 | with a url: the first instance with it was polled, or there is none; without: all instances of the app were polled |
| LifecycleLoops.Unpackerr.CheckQueueChanges | pkg/unpackerr/handlers.go:71-117 | the loop over the map, in any order, gives every item the fate that the safety theorems speak of, and changes nothing else |
| LifecycleLoops.Unpackerr.CheckExtractDone | pkg/unpackerr/handlers.go:300-364 | likewise for the cleaner tick, deletions included |
| LifecycleLoops.Unpackerr.HandleXtractrCallback | pkg/unpackerr/handlers.go:368-457 | a title not in the map is ignored; else exactly its item, with the files of the report, its row and clock change as the report says |
| LifecycleLoops.Unpackerr.MarkItemQueued | pkg/unpackerr/handlers.go:203-224 | the item is queued and recorded, and nothing else changes |
| LifecycleLoops.Unpackerr.CheckStarrQueue | pkg/unpackerr/starrpoll.go:148-198 | the nested loops add what the fold over instances and records adds, the first instance winning |
| LifecycleLoops.Unpackerr.PublishStarrPoll | pkg/unpackerr/starrpoll.go:129-146 | a failed poll changes no queue; a good one replaces it and marks the instance polled |
| LifecycleLoops.Unpackerr.SweepForgotten | pkg/unpackerr/queue_actions.go:224-241 | nothing is released before every instance was polled; then exactly the titles that no queue holds |
| LifecycleLoops.Unpackerr.RetryQueueID | pkg/unpackerr/queue_actions.go:123-151 | the three outcomes, and the state of the manual-retry step; an item that has not failed is left alone |
| LifecycleLoops.Unpackerr.ForgetQueueID | pkg/unpackerr/queue_actions.go:180-217 | the three outcomes, and the state of the forget step; an item in progress is left alone |
| LifecycleLoops.CarryQueues | pkg/unpackerr/configput.go:714-735 | a new instance has the poll of some old one with the same app, url and key, whichever came last, when there was one; any other counts as never polled |
| LifecycleLoops.Unpackerr.PutStarrList | pkg/unpackerr/configput.go:619-678 | only the instances change, and each keeps or loses its poll as above |
| LifecycleLoops.RestoreQueue | pkg/unpackerr/historyrestore.go:22-128 | the map and the forgotten titles after a restart, row by row in any order; a row that does not name its app takes it from its url, and one of no known app is left out unless it is imported |
| FolderRetries.RetriesBounded | pkg/unpackerr/folder.go:700-742 | in every run a folder's retries stay within the limit, the queue shows the same number, and it is extracted at most once more than it was retried and the process restarted |
| FolderRetries.RetriesReached | pkg/unpackerr/folder.go:700-742 | the bound is met: every number of retries up to the limit is reached by a run from the start that extracts the folder once more than it retries it |
| FolderRetries.DoneExactly | pkg/unpackerr/folder.go:368-496 | a folder is extracted exactly when the extraction succeeded, has nothing exactly without archives, else has failed; remnants that are not to be touched end its retries |
| FolderRetries.TickExactly | pkg/unpackerr/folder.go:700-742 | a failed folder is given up exactly when it may not be retried or its retries are used up, and else starts again exactly when its delay is over |
| FolderRetries.RetryExactly | pkg/unpackerr/queue_actions.go:155-178 | a manual retry starts anew without retries, exactly when the folder has failed |
| FolderRetries.OthersExactly | pkg/unpackerr/folder.go:368-396 | a folder is tracked once, queued only while it waits, and recorded as what it is |
| FolderRetries.StartsExactly | pkg/unpackerr/folder.go:700-742 | the extractions that the bound speaks of are those queued since the folder was tracked or last retried by hand |
| FolderRetries.RestartExactly | pkg/unpackerr/historyrestore.go:225-269 | a restart tracks exactly the folders whose row was kept and whose work was not over, with their retries |
| FolderRetries.FolderTracker.CheckFailedFolder | pkg/unpackerr/folder.go:700-742 | tracker, shown retries and row after a tick are those of the step that the bound speaks of |
| FolderRetries.FolderTracker.FolderDone | pkg/unpackerr/folder.go:368-496 | likewise for a finished extraction, with cleared and remaining remnants |
| FolderRetries.FolderTracker.RetryFolder | pkg/unpackerr/queue_actions.go:155-175 | a manual retry starts a fresh cycle, in the tracker, the queue and the row |
| HookProtocol.DeliveredInOrder | pkg/unpackerr/history.go:39-57 | under every interleaving hooks are delivered in the order in which they were queued, each once, and none waits under the lock once it is free |
| HookProtocol.RestartLosesNothing | pkg/unpackerr/restart.go:13-91 | when the process restarts, every hook and delete is done and every failure and message id is applied |
| HookProtocol.EverythingDelivered | pkg/hooks/worker.go:37-83 | from every reachable state finitely many steps, which queue nothing new, deliver every hook queued so far, do every delete and bring the in-flight counter to zero |
| HookProtocol.NeverStuck | pkg/unpackerr/start.go:420-444 | away from rest some step is enabled that brings the system nearer to it, with a full queue too |
| HookSteps.AllOnRecord | pkg/unpackerr/history.go:39-57 | in every run the deliveries, ids, failures and deletes that the theorems speak of are exactly those that the run asked for |
| HookSteps.AskedIsDelivered | pkg/unpackerr/history.go:39-57 | finitely many more steps deliver everything that was asked for, in that order |
| HookSteps.RestartReached | pkg/unpackerr/restart.go:13-55 | from every reachable state finitely many steps bring the process to a restart when the rest of the program is quiet |
| HookSteps.IdleExactly | pkg/unpackerr/restart.go:57-91 | each read of the idle check goes on exactly when there is nothing to wait for |
| HookSteps.SavedExactly | pkg/unpackerr/webhook.go:467-495 | an id is written to the extract it was saved for exactly when that still has the title |
| HookSteps.DeletedExactly | pkg/unpackerr/history.go:69-73 | a deleted extract leaves the map, finds no id any more, and what others find stays |
| HookSteps.CreatedExactly | pkg/unpackerr/webhook.go:303-339 | a new extract is another one than all before it, with the ids it was restored with |
| HookProtocol.IdleCheck | pkg/unpackerr/restart.go:57-91 | what each read of the idle check saw still holds at the next, because the counter is read first |
| HookProtocol.IdleWork | pkg/hooks/worker.go:37-83 | no step of the workers can undo what the idle check saw |
| HookProtocol.FlowWork | pkg/hooks/worker.go:37-61 | taking, finishing and deleting keep the queue in order and the in-flight counter exact |
| HookProtocol.FlowLocked | pkg/unpackerr/start.go:300-304 | queueing hooks and deletes under the lock keeps both |
| HookProtocol.FlowFlush | pkg/unpackerr/start.go:420-444 | counting and sending after the unlock keep both, with a full queue too |
| HookProtocol.ReportsDrain | pkg/unpackerr/webhook.go:210-219 | draining applies every failure and every id once, in order |
| HookMessageIds.FindsOwnIds | pkg/unpackerr/webhook.go:341-398 | the id a delivery edits was saved by a delivery for its own extract or came with that extract; never from an earlier one with the same title |
| HookMessageIds.FindsNewest | pkg/unpackerr/webhook.go:303-355 | while its extract has the title, a delivery finds the newest of all the ids that its deliveries wanted stored, or else the one it started with: none is refused |
| HookMessageIds.DrainedCacheAgrees | pkg/unpackerr/webhook.go:467-495 | once no save waits, the extract that has the title has the newest of all those ids, and the cache the same |
| HookMessageIds.BooksForgotten | pkg/unpackerr/history.go:69-73 | deleting an extract with its cache entry keeps the other extracts' entries true |
| HookMessageIds.BooksStored | pkg/unpackerr/webhook.go:359-398 | a store by any worker keeps cache, waiting saves and extracts in step, for every extract |
| HookMessageIds.BooksSeeded | pkg/unpackerr/webhook.go:303-339 | seeding again loses no id a delivery saved meanwhile |
| HookCache.FoundAfterStore | pkg/unpackerr/webhook.go:341-398 | a lookup right after a store finds that id exactly when no other extract owns the entry; ids under other keys stay, and a store without a name, key or id changes nothing |
| HookCache.FoundAfterSeed | pkg/unpackerr/webhook.go:300-339 | after seeding an extract finds what it had under a key, or else what it brought |
| HookCache.SeededAgain | pkg/unpackerr/webhook.go:300-339 | seeding again adds exactly the ids that say something, under keys that are missing |
| HookCache.NothingWithoutNames | pkg/unpackerr/webhook.go:300-339 | without an item nothing is seeded or dropped, and without an item or a key nothing is found |
| HookCache.FoundAfterDrop | pkg/unpackerr/webhook.go:400-411 | only its owner drops an entry, and then finds nothing |
| HookCache.OthersUntouched | pkg/unpackerr/webhook.go:295-411 | a store changes nothing that another extract finds; seeding takes the title away from it |
| HookCache.HookMessages.SeedHookMessages | pkg/unpackerr/webhook.go:303-339 | the loop over the restored ids adds exactly the non-empty ones under keys that are missing |
| HookCache.HookMessages.LookupHookMessage | pkg/unpackerr/webhook.go:341-355 | the id of the owning extract, or nothing |
| HookCache.HookMessages.StoreHookMessage | pkg/unpackerr/webhook.go:359-398 | an id for an extract that no longer owns the entry is dropped; else it is cached, queued and the main loop woken |
| BlockScan.FencedBlockTransparent | pkg/configdef/validate.go:765-929 | a complete top-level fence at the start of a text is transparent: for any indent, mark, length, legal info string and body lines that do not close it, stripping the whole is stripping the rest (CommonMark 0.31.2 section 4.5) |
| BlockScan.FencedBlockMidDocument | pkg/configdef/validate.go:765-929 | the same between top-level blocks of any document |
| BlockScan.FencedBlock | pkg/configdef/validate.go:867-929 | at any depth of lists a complete fence leaves no output and no trace but the start of a new block |
| BlockScan.UnclosedFence | pkg/configdef/validate.go:867-884 | a fence that nothing closes swallows the rest |
| BlockReading.KeptExactly | pkg/configdef/validate.go:765-932 | for every text the scanner writes exactly the lines that are read as text or blank, where the kind of a line follows from its shape and the kinds of the lines before it |
| BlockReading.IndentedRun | pkg/configdef/validate.go:816-820 | after any lines that leave no fence open and at any content column: a run of lines indented four columns or more past it is left out, exactly unless it follows paragraph text; then all of it is kept (CommonMark 0.31.2 section 4.4) |
| BlockReading.IndentedStart | pkg/configdef/validate.go:816-820 | at the start of a text it is left out |
| BlockReading.IndentedAfterText | pkg/configdef/validate.go:816-820 | right after a line of paragraph text it is kept |
| BlockLines.MarkerExactly | pkg/configdef/validate.go:994-1017 | a list marker is a bullet, or one to nine digits with a dot or a parenthesis |
| BlockLines.NumberReadsBack | pkg/configdef/validate.go:994-1017 | the number of an ordered item is the one its digits write |
| BlockLines.ItemExactly | pkg/configdef/validate.go:934-992 | a list item is a marker that ends the line or has a blank after it |
| BlockLines.ContentExactly | pkg/configdef/validate.go:1032-1041 | an item has content exactly when something other than white space follows its marker |
| BlockLines.OpenerExactly | pkg/configdef/validate.go:1142-1169 | an opening fence is a run of at least three marks, without a backtick after backticks |
| BlockLines.HeadingExactly | pkg/configdef/validate.go:1077-1092 | a heading is one to six `#` with a blank or nothing after them |
| BlockLines.RuleExactly | pkg/configdef/validate.go:1094-1119 | a rule has its mark at three places and only blanks besides |
| BlockLines.UnderlineExactly | pkg/configdef/validate.go:1121-1140 | an underline is a run of one of two marks |
| BlockLines.TrimExactly | pkg/configdef/validate.go:788-790 | trimming takes white space from both ends and all of it |
| BlockLines.SpaceExactly | pkg/configdef/validate.go:788-790 | white space is what Unicode calls so, by code point |
| BlockLines.IndentIs | pkg/configdef/validate.go:1043-1063 | the indent is the column that the blanks reach, a tab going to the next multiple of four |
| BlockLines.TabStops | pkg/configdef/validate.go:1043-1063 | a tab always ends at a multiple of four columns, at most four further |
| BlockScan.CloserIsARun | pkg/configdef/validate.go:921-929 | a line closes a fence exactly when, trimmed, it is nothing but enough marks, at most three columns in |
| BlockScan.OpenerShape | pkg/configdef/validate.go:1142-1167 | the opening lines of CommonMark 0.31.2 section 4.5 are openers of their mark and length |
| BlockScan.CloserShape | pkg/configdef/validate.go:1171-1182 | and its closing lines are closers |
| BlockScan.ScanGood | pkg/configdef/validate.go:775-929 | at every line of every scan the list stack is strictly increasing with its top the content column, an open fence has three marks or more at that column, and the output is whole input lines in order, each at most once |
| BlockScan.PlainTextKept | pkg/configdef/validate.go:788-865 | a text with no fence mark and no line indented past three columns loses nothing |
| ItemColumns.ItemColumn | pkg/configdef/validate.go:934-985 | for every item with text: up to four columns of blanks all go and the content starts at the text; its column is that of CommonMark 0.31.2 section 5.2 exactly unless more than four columns of blanks stop at the fourth |
| ItemColumns.FiveBlanks | pkg/configdef/validate.go:934-985 | five blanks after a marker: an instance |
| MdScan.MdScan.Line | pkg/configdef/validate.go:788-824 | one line changes the object to the state that the theorems above speak of |
| MdScan.MdScan.ContinueFence | pkg/configdef/validate.go:867-884 | whether an open fence uses the line up, and the state after it |
| MdScan.MdScan.OpenFence | pkg/configdef/validate.go:886-914 | whether the line opens a fence, in a list item too, and the state after it |
| MdScan.MdScan.PopLists | pkg/configdef/validate.go:839-850 | the loop leaves the longest prefix of the stack that the indent reaches |
| MdScan.MdScan.WriteContent | pkg/configdef/validate.go:852-865 | the line is written and the list, paragraph and indent state follow |
| MdScan.StripCode | pkg/configdef/validate.go:765-773 | the scan of all the lines is what the transparency theorems speak of |
| MdScan.SplitListItem | pkg/configdef/validate.go:934-985 | the padding loop with its tab stops gives the content column and the rest |
| MdScan.ConsumeListMarker | pkg/configdef/validate.go:994-1017 | the digit loop gives the marker's end and the number it spells |
| MdScan.IsThematicBreak | pkg/configdef/validate.go:1094-1119 | true exactly for three or more of one mark with only blanks between |
| MdScan.IsSetextUnderline | pkg/configdef/validate.go:1121-1138 | true exactly for a run of one of the two marks |
| InlineCode.StripIdempotent | pkg/configdef/validate.go:1186-1216 | stripping inline code twice is stripping it once, for every text |
| InlineCode.StripReadsBack | pkg/configdef/validate.go:1186-1242 | what is left is read as exactly the tokens kept, so no two runs are joined and no escape changed, and no run in it has a closer |
| InlineCode.StripReadable | pkg/configdef/validate.go:358-365 | removing a span changes no escape to its right and joins no runs |
| InlineCode.StripLeavesAlone | pkg/configdef/validate.go:1186-1216 | a text is left alone exactly when no run in it has a closer |
| InlineCode.StripIsTheCut | pkg/configdef/validate.go:1186-1242 | every way of cutting a text into kept tokens and spans between runs of one length keeps what stripping keeps |
| InlineCode.LegalCutExists | pkg/configdef/validate.go:1186-1242 | and there is such a cut |
| InlineCode.CloserIsFirst | pkg/configdef/validate.go:1221-1242 | a closer is the first token of its length: no token passed over before it is one, and without a closer no token is |
| InlineCode.FindClosingBacktickRun | pkg/configdef/validate.go:1221-1242 | the loop finds that closer, passing over other runs whole |
| InlineCode.StripInlineCode | pkg/configdef/validate.go:1186-1216 | the loop writes what the theorems above speak of |
| BraceMatch.EndShape | pkg/configdef/validate.go:407-458 | the matcher always makes progress and returns -1 or a place just after an unescaped closing brace |
| BraceReading.GroupEndIsPlain | pkg/configdef/validate.go:407-458 | for every text a group ends where the plain depth counter ends on its code: the text with strings, comments, regular expressions and escaped characters blanked out, where a slash opens a regular expression as StartsExactly says by looking back, without the matcher or its fields |
| BraceReading.CodeIsText | pkg/configdef/validate.go:407-458 | every character of that code is an unescaped character of the text at its place |
| BraceMatch.PlainGroupEnd | pkg/configdef/validate.go:407-458 | without quotes, slashes and backslashes it is the plain depth counter |
| BraceMatch.CheckReadsTheLine | pkg/configdef/validate.go:340-402 | removing spans first changes no escape: the check answers whether the line itself has an unescaped brace outside its complete spans |
| BraceMatch.CommentComplete | pkg/configdef/validate.go:377-384 | a removed comment is complete, its two marks apart, exactly when the line does not go on with a mark whose star closes itself |
| BraceMatch.OverlappingComment | pkg/configdef/validate.go:377-384 | an incomplete comment that is accepted: an instance |
| BraceGrammar.LegalLinesAccepted | pkg/configdef/validate.go:340-458 | every line of plain text, escapes, complete comments and {{...}} groups, with nested groups, string literals, block comments, regular expressions and divisions inside, is accepted |
| BracePlain.PlainLineAccepted | pkg/configdef/validate.go:340-458 | without quotes, slashes and backslashes a line is accepted exactly when it is brace-free text and balanced {{...}} groups |
| BraceGrammar.GroupEnds | pkg/configdef/validate.go:407-458 | a group ends at its own closing brace whatever braces its strings, comments and regular expressions hold |
| JsLiterals.BodyEnds | pkg/configdef/validate.go:722-732 | a string literal ends at its first unescaped quote |
| JsLiterals.RegexExactly | pkg/configdef/validate.go:678-720 | for every text an end is found exactly where a legal regular expression ends: escapes, classes, the first slash outside both, and all its flags, on one line |
| JsLiterals.SkipsExactly | pkg/configdef/validate.go:639-749 | for every text and place: something is passed over up to a place exactly when a string literal, a line comment, a block comment or, where one may start, a regular expression ends there by its own grammar; where none starts it is code |
| RegexPlaces.StartsExactly | pkg/configdef/validate.go:460-603 | for all code, jsPunct takes a slash for a regular expression exactly after a keyword that is no property name, after the parenthesis that closes the outermost open head of a control statement, or after an operator other than ++ and -- |
| RegexPlaces.HeadThenLiteral | pkg/configdef/validate.go:491-521 | after a control keyword, a parenthesis, balanced text and its closing parenthesis a slash starts a regular expression exactly when that head stands in no other head |
| RegexPlaces.HeadInsideHead | pkg/configdef/validate.go:491-521 | a head inside another head, after which it does not: an instance |
| RegexPlaces.SignRuns | pkg/configdef/validate.go:568-582 | after a run of + or - a slash divides as it does in JavaScript, which reads the run two at a time, exactly unless the run is odd and longer than one |
| RegexPlaces.AfterPassedOver | pkg/configdef/validate.go:584-603 | white space and comments change nothing about a slash after them; after a string or regular expression it divides |
| ControlParens.ControlEnds | pkg/configdef/validate.go:491-521 | balanced parentheses of a control statement are counted to their own end exactly when no other head is open around them |
| ControlParens.ClosesIs | pkg/configdef/validate.go:491-521 | counting from one head at a time finds the parenthesis that closes the outermost open one, over every text |
| JsTables.IdentCharsExactly | pkg/configdef/validate.go:605-613 | the characters of identifiers, by code point |
| JsTables.SpacesExactly | pkg/configdef/validate.go:635-637 | white space of the matcher, by code point |
| JsTables.QuotesExactly | pkg/configdef/validate.go:646-648 | the quotes, by code point |
| JsTables.FlagsExactly | pkg/configdef/validate.go:713-720 | the flags of regular expressions |
| JsTables.RegexKeywordsExactly | pkg/configdef/validate.go:615-624 | the words after which an expression follows |
| JsTables.ControlKeywordsExactly | pkg/configdef/validate.go:626-633 | the words that open a control statement |
| JsTables.OperatorsExactly | pkg/configdef/validate.go:669-676 | the characters after which an expression follows |
| JsPunct.BalancedBraceEnd | pkg/configdef/validate.go:407-458 | the loop over jsPunct finds the end that the theorems above speak of |
| JsPunct.SkipJSRegex | pkg/configdef/validate.go:678-703 | the loop finds the end that JsLiterals.RegexExactly speaks of |
| JsPunct.StripAllowedBraces | pkg/configdef/validate.go:370-402 | the loop leaves out exactly the complete spans |
| JsPunct.CheckBraces | pkg/configdef/validate.go:340-354 | the loop answers what the acceptance theorems speak of |
| PurgeEmpty.Disk.PurgeEmptyFolders | pkg/unpackerr/start.go:340-397 | one pass removes exactly the candidates that can be removed with nothing but such candidate directories below them, whatever the order among paths of one length; the count is the number found empty, which CountIsRemoved compares with the number removed that the source promises |
| PurgeEmpty.CountIsRemoved | pkg/unpackerr/start.go:340-397 | the number returned is the number removed and the number of those found empty that stayed; it is the number removed exactly when every directory found empty could be removed |
| PurgeEmpty.StuckIsCounted | pkg/unpackerr/start.go:388-394 | one is returned and nothing was removed: an instance |
| PurgeEmpty.Disk.DeleteRequest | pkg/unpackerr/start.go:312-338 | first the files and what is below them, as far as they can be removed, then exactly the directories that leaves empty |
| PurgeEmpty.NothingEmptyLeft | pkg/unpackerr/start.go:342-397 | one pass is enough: a surviving candidate is empty exactly when it was found empty and could not be removed |
| PurgeEmpty.PurgeIdempotent | pkg/unpackerr/start.go:342-397 | a second pass removes nothing more |
| PurgeEmpty.OnlyEmptyAncestorsGo | pkg/unpackerr/start.go:342-397 | what goes was a directory above a deleted path, at or below the root, with no file below it |
| PurgeEmpty.EmptyIsFound | pkg/unpackerr/start.go:384-396 | a directory is found empty at its turn exactly when everything below it is a candidate directory that can be removed |
| FileTree.RemovedExactly | pkg/unpackerr/remnants.go:262-274 | removing paths one after another removes exactly what is at or below one of them, but for what is stuck and the folders above that |
| PurgeEmpty.Candidates | pkg/unpackerr/start.go:343-372 | the loop collects exactly the directories above the paths, at or below the root |
| PurgeEmpty.LongerBelow | pkg/unpackerr/start.go:384-386 | the path of anything below a directory is longer, so sorting by length puts it first |
| Remnants.ClearAllConserves | pkg/unpackerr/remnants.go:308-364 | in rename mode a whole pass moves every entry to a place of its own with its content, loses nothing and overwrites nothing, whatever fails on the way; what no blocker is above stays |
| Remnants.MoveConserves | pkg/unpackerr/remnants.go:349-363 | renaming to a free name beside it moves exactly the subtree |
| Remnants.ClearAllDeletes | pkg/unpackerr/remnants.go:333-346 | in delete mode exactly what is at or below a blocker that can be looked up goes, but for what is stuck and the folders above that |
| Remnants.DeletedMeansGone | pkg/unpackerr/remnants.go:308-346 | in delete mode a full count means that every blocker is gone |
| Remnants.ClearedMeansGone | pkg/unpackerr/remnants.go:308-318 | with a full count, in every mode, a blocker is in the way again exactly when it was renamed and a later turn puts it back with no still later turn taking it away |
| Remnants.TurnHas | pkg/unpackerr/remnants.go:349-363 | after a turn a place is taken exactly when the turn put something there, the new name being it or above it, or it was taken and did not move away |
| Remnants.TurnsHave | pkg/unpackerr/remnants.go:308-318 | the same over any number of turns: put there and not taken away since, or there all along |
| Remnants.RenamedBackInTheWay | pkg/unpackerr/remnants.go:308-384 | two blockers that both count as cleared though one is back: an instance |
| Remnants.ClassifyChooses | pkg/unpackerr/remnants.go:279-305 | chosen are exactly the refused paths below a destination that did not come with the download, each once |
| Remnants.DownloadStays | pkg/unpackerr/remnants.go:232-277 | what came with the download stays in place with its content, in every mode and outcome, unless a folder above it was refused or rolled back |
| Remnants.RestartFindsRoom | pkg/unpackerr/remnants.go:232-277 | at a restart an output of the partial move is there exactly when it is stuck or above what is stuck, and a blocker exactly when a later rename put it back and no output at or above it was removed |
| Remnants.RestartWhenCleared | pkg/unpackerr/remnants.go:232-277 | a restart is ordered exactly when it is allowed, something was chosen and all of it counts as cleared |
| Remnants.RestartBlockedAgain | pkg/unpackerr/remnants.go:232-277 | a restart ordered with a blocker in the way: an instance |
| Remnants.OutputsExactly | pkg/unpackerr/remnants.go:262-274 | rolled back is exactly what was moved below a destination and did not come with the download |
| Remnants.CandidateExactly | pkg/unpackerr/remnants.go:366-384 | the names tried stand beside the blocker, with ".remnant" and then a number after its own |
| Remnants.CandidatesDiffer | pkg/unpackerr/remnants.go:366-384 | and are all different |
| Remnants.UnusedRemnantPath | pkg/unpackerr/remnants.go:366-384 | the first of the 999 names that is free, and never one in use |
| Remnants.Cleaner.ClearRemnant | pkg/unpackerr/remnants.go:322-364 | the tree and the answer for one blocker, missing, hidden and stuck ones too, and what a removal that fails half way leaves |
| Remnants.Cleaner.ClearRemnants | pkg/unpackerr/remnants.go:308-318 | the loop is the pass that the conservation theorem speaks of |
| Remnants.Cleaner.HandleRemnants | pkg/unpackerr/remnants.go:232-277 | the verdict and the tree that the two theorems above speak of |
| LogTail.PagesTile | pkg/unpackerr/logfiles.go:435-472 | an older page followed by the newer one is the page of both, for every non-empty file and all counts |
| LogTail.PageHasCountLines | pkg/unpackerr/logfiles.go:435-472 | a page after skipped lines lies between newlines and holds exactly the lines asked for |
| LogTail.WholeFile | pkg/unpackerr/logfiles.go:435-472 | a page that asks for enough lines is the whole file less a newline that opens it |
| LogTail.ReadFileTail | pkg/unpackerr/logfiles.go:435-472 | the backward byte loop with its reversal returns that page |
| LogTail.SwapEnds | pkg/unpackerr/logfiles.go:474-481 | the array is reversed in place |
| LogTee.ChunkingDoesNotMatter | pkg/unpackerr/logtee.go:63-86 | however the bytes are cut into writes, the lines sent, the ring and the open line are those of splitting all of them at once |
| LogTee.SplitLosesNothing | pkg/unpackerr/logtee.go:63-86 | the lines and the open line are the bytes again, without carriage returns in them |
| LogTee.TrimsExactly | pkg/unpackerr/logtee.go:63-86 | a line loses exactly the carriage returns at its end |
| LogTee.LastNExactly | pkg/unpackerr/logtee.go:19-31 | the ring never holds more than its size, and what it holds is the end of the lines |
| LogTee.RingIsLast | pkg/unpackerr/logtee.go:19-31 | the ring holds the last non-empty lines |
| LogTee.Tee.Write | pkg/unpackerr/logtee.go:63-86 | the loop settles the buffer as the chunking theorem says |
| LogTee.LineRing.Add | pkg/unpackerr/logtee.go:19-31 | an empty line changes nothing; any other is the newest of at most max |
| FreshName.Pigeonhole | pkg/unpackerr/apikeys.go:287-312 | fewer numbered names are tried than names are used |
| FreshName.NumberUp | pkg/unpackerr/apikeys.go:304-311 | the loop without a bound ends within as many tries as there are used names, at the smallest free number |
| FreshName.UnusedKeyName | pkg/unpackerr/apikeys.go:287-312 | the name is in neither list, and is the wanted one or the fallback when free |
| FreshName.UniqueSlug | frontend/src/lib/slug.ts:36-47 | the slug is not taken, and is the base or the fallback when free |
| TomlKey.KeyRoundTrip | pkg/configdef/live.go:441-477 | decoding a printed key gives the key exactly when U+007F is not in it (TOML v1.0.0, "Keys" and "String") |
| TomlKey.BareOnlyWhenItDecodes | pkg/configdef/live.go:441-489 | a key is printed bare exactly when the bare text decodes to it |
| TomlKey.PrintedInjective | pkg/configdef/live.go:441-477 | two keys that print alike are the same key |
| TomlKey.BareExactly | pkg/configdef/live.go:478-489 | the characters of bare keys are those of TOML v1.0.0, "Keys" |
| TomlKey.TomlKey | pkg/configdef/live.go:441-447 | prints what the round trip speaks of |
| TomlKey.QuoteTOMLString | pkg/configdef/live.go:449-477 | the loop writes what the round trip decodes |

## Left out

- HTTP handlers, authentication, websockets, metrics, tray and the web interface: input and output with no deep invariant.
- xtractr, the Starr clients and fsnotify are steps of the environment: a poll fails or brings records, an extraction starts and then ends in one of a few ways.
- JSON and TOML parsing: a history line is a row or does not parse, and a row is abstract apart from its id, path, status, start time and flag.
- Clocks are integers that may jump; paths are absolute, cleaned lists of components, so a relative path whose name is as long as "." is not covered by the order of the purge.
- keep_history is at least 1 and constant, max_retries is constant, and file writes are atomic and succeed; the memory-only history without a file is not modelled.
- Files that appear or vanish on disk while the purge or the cleaner works; what cannot be removed or renamed is one set of places for a whole pass.
- Remnants: os.SameFile identity (a blocker that is a download file under another spelling) is not modelled; paths of the snapshot are compared as they are. How the snapshot is taken is left out.
- Lifecycle by itself keeps one row for each title and lets the history trim and bring back more than HistoryLog does; LifecycleHistory shows that with the file only such steps happen. HistoryExamples.ForgottenRowReturns shows the file behind ForgottenRun.
- LifecycleHistory.RunRefines: starts from an empty file; a record without a title, which the program files under its path, and hook ids written into a row are not steps of these runs; the columns of a row are any function of the item.
- Lifecycle: the app of a row stands for its kind, or for its label where that names an app; rows of folders are left out.
- Lifecycle: queue records carry a title and whether they are complete; start delay, Syncthing files, notes, progress, due times and the Lidarr import are left out, so extraction may start at any time the program could.
- Watched folders: only the retry cycle; watching, wait extensions, recovery file and cleanup paths are left out.
- HookProtocol: a hook always names the extract it was queued for, as queuePendingHook makes it; one locked section never queues a hook for an item and deletes the same item, as in every handler of the program; what a delivery sends and whether it updates a message is up to the environment; the other conditions of idle are one free choice.
- HookProtocol: ids saved for an item that has left the map go into its history row, which HistoryLog.BumpedRow describes; the worker steps do not keep the history.
- The matcher reads a `/` after `}` as a division; telling a block from an object literal, as JavaScript does, is not modelled.
- Bytes of markdown are characters: text that is not valid UTF-8 is not modelled.
- Finite tables (status names, permission lists, event templates) and plain validation branches.
