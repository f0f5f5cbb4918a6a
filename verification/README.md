# A verified model of the agent-master engine

The engine keeps a master list of MCP server configurations and writes it to many
destinations. This project models the parts of it that have to be right in every
interleaving, for every iteration order of a Go map and for every input string, and proves
what they guarantee. `dafny verify dfyconfig.toml` checks everything.

How the source's world is represented:

- **Goroutines** are state machines. A state holds one program point per goroutine, the
  locks, channels and counters they share, and a step executes one statement of one of them.
  Theorems quantify over all runs, hence over all schedules.
- **Map iteration** is a loop that picks any remaining key. Where the order could matter the
  method returns it as a ghost result, and lemmas say exactly when it does not.
- **Strings** are character sequences, one character per byte (ASCII) where a length limit is
  involved. `strings.ReplaceAll`, `Split`, `Trim`, `filepath.Clean` and the regular
  expressions used are written out in `Text`, `NameShape` and `Paths`.
- **Panics** (a slice out of range, a write to a nil map) and errors are results, not
  preconditions.
- **The file system** is a map from cleaned paths to contents, written atomically.
  **JSON** is an injective codec. **Time** is a number that never decreases.

| file | models |
|---|---|
| `WorkerPool`, `PoolOutcomes`, `MultiSync` (over `Tally`) | the two concurrent sync operations, and what they report |
| `Debounce`, `AutoSync`, `Schedules`, `SoloCalls`, `LateRequests` | the debounce timer, Start/Stop/GetStatus/SetConfig/performSync over two locks, what can always still happen, what each operation does on its own, and what outlives Stop |
| `Substitution`, `Placeholders`, `McpConfig` | variable substitution, what becomes of each placeholder, and reading MCP files |
| `DuplicateNames`, `NameShape`, `Sanitizer`, `ClaudeNames`, `SanitizerLaws`, `ToolNames` | the algorithms on names, and rules that determine the sanitizers' results |
| `Paths`, `PathLaws`, `Storage`, `StorageRuns` | key/path conversion, FileStorage and MemoryStorage, and running the two side by side |
| `Backups`, `BackupSafety`, `BackupRuns`, `BackupData`, `MemoryBackups` | backup operations as a class, what each keeps, whole runs on a FileStorage, what they leave behind, and what a MemoryStorage breaks |
| `ServerDiff`, `Merge`, `Import`, `TargetConfig`, `TargetEntries` | comparing, merging, importing and generating configurations |

What the proofs turned up:

- On a `MemoryStorage` clean-up deletes `backup-meta/ID` while metadata lives under
  `backup-meta:ID`, so the retention bound fails as soon as `maxBackups` backups are listed
  (`MemoryBackups.Retention`); from an empty storage, m + 1 backups are enough
  (`MemoryBackups.Overflows`). The repository's test at `export_backup_test.go:172-224`
  expects the bound on exactly that storage; the model follows the code.
- `HandleDuplicateName` with an empty base name slices past its end for exactly one family of
  inputs (`DuplicateNames.HandleDuplicateName`), for instance when only the empty name is
  taken and the limit is one character.
- `generateProjectNestedConfig` writes into a nil map when the existing file is present but
  not a JSON object (`TargetConfig.GenerateProjectNested`), and does not check the enabled
  flag or the target lists of project-specific servers. Where sanitizing gives two servers one
  name, generating again can change the document (`TargetConfig.FixedPointExactly`).
- The iteration order of the environment shows in a substituted string exactly when some
  variable's value mentions another variable that does not stand for its own reference, given
  names that can be written as references and values made of them
  (`Substitution.OrderShowsExactly`). A closing brace in a variable's name matches across
  references (`Substitution.BraceInKeyIsVisible`).
- The order of a sanitizer's one-character replacements shows in some name exactly when one
  entry produces the key of another that would change it (`NameShape.OrderShowsExactly`).
- A request that SetConfig started before Stop cancels the timer can arm one that is still
  armed when Stop has returned, and only such a request can
  (`LateRequests.ArmedAtReturnExactly`, `LateRequests.TimerCanOutliveStop`).
- A FileStorage keeps a key and the same key followed by `.json` in one file
  (`PathLaws.ExtensionIsShared`).
- Removing the `@` prefix in the preset's sanitizer never shows in a result
  (`SanitizerLaws.PrefixDoesNotShow`).
- A Start whose configuration file cannot be watched leaves its delay and stop channel behind,
  though auto-sync is off (`SoloCalls.StartFails`).
- A rejected import can leave part of the file in memory (`Import.RejectedImportTraces`), and
  importing a server over a nil map panics unless in replace mode (`Import.PanicsExactly`).

## Model

| member | source | states |
|---|---|---|
| `WorkerPool.StepKeepsInv` | sync.go:112-168 | every interleaved step of spawner, workers, closer and collector keeps the slot, wait-group, channel and result counts in agreement with where the goroutines are |
| `WorkerPool.AtMostFive` | sync.go:115-128 | at most five workers are between taking and returning a semaphore slot |
| `WorkerPool.NoSixAtOnce` | sync.go:115-138 | at no point of any run do more than five workers sync |
| `WorkerPool.SendNeverBlocksNorPanics` | sync.go:114-158 | a worker holding a result always finds the channel open and with room |
| `WorkerPool.CloseIsLast` | sync.go:154-158 | the channel is closed once, and only when every spawned worker has finished |
| `WorkerPool.DeferredCallsNeverBlock` | sync.go:124-128 | returning a slot never blocks and the wait group never goes below zero |
| `WorkerPool.StepDecreases` | sync.go:117-168 | every step, cancellation included, decreases a natural-number measure |
| `WorkerPool.SomeStepEnabled` | sync.go:112-168 | before the call returns, some goroutine can proceed |
| `WorkerPool.EveryScheduleReturns` | sync.go:98-172 | every schedule has at most 9n+5 states, and one that cannot continue has returned |
| `WorkerPool.Outcome` | sync.go:98-172 | successes plus failures is the number of results; each eligible target is reported at most once, no other is, and each exactly once without cancellation |
| `PoolOutcomes.CancelledNeverSyncs` | sync.go:130-137 | a worker that has not come to the context check when the context is cancelled never has a result, received or in the channel |
| `PoolOutcomes.CancelledFromTheStart` | sync.go:112-137 | a call whose context is cancelled before its first worker has no results at any time |
| `PoolOutcomes.StartsSyncing` | sync.go:130-138 | a worker starts its sync only from the context check, and only while the context is not cancelled |
| `PoolOutcomes.ReportedExactly` | sync.go:130-168 | a returned call reports a target exactly when its worker was syncing at some point |
| `PoolOutcomes.ResultsAreSyncs` | sync.go:137-168 | at every point of every run, each result is the outcome with which its own target's worker left its sync |
| `MultiSync.StepKeepsInv` | engine_impl.go:343-379 | with counter and slice updates split into a read and a write, every step keeps values read under the mutex current and the counts exact |
| `MultiSync.MutualExclusion` | engine_impl.go:354-355 | two goroutines are never both between lock and unlock |
| `MultiSync.SomeStepEnabled` | engine_impl.go:343-381 | no deadlock before the call returns |
| `MultiSync.EveryScheduleReturns` | engine_impl.go:343-384 | every schedule is finite and ends in a return |
| `MultiSync.Outcome` | engine_impl.go:328-384 | on return there is exactly one result per destination, and the counters are the numbers of successful and failed results |
| `MultiSync.ResultsAreSyncs` | engine_impl.go:343-379 | at every point of every run, each result is the outcome with which its own destination's goroutine left its sync |
| `Debounce.StepKeepsInv` | autosync_manager.go:155-182 | a timer is armed exactly when the last event was a request, for that request's time plus delay; every firing answers the request right before it |
| `Debounce.RunInv` | autosync_manager.go:311-324 | this holds at every point of every run |
| `Debounce.AtMostOneArmed` | autosync_manager.go:311-324 | at most one timer is ever armed |
| `Debounce.PendingRequestIsArmed` | autosync_manager.go:320-323 | a request nothing has followed has its timer armed, due one delay after the request |
| `Debounce.FiringsAreApart` | autosync_manager.go:311-324 | two firings are at least the later one's delay apart |
| `Debounce.BurstFiresOnce` | autosync_manager.go:311-324 | requests closer together than the delay cause exactly one firing, past or still to come |
| `AutoSync.StepKeepsInv` | autosync_manager.go:76-269 | lock ownership, loop life cycle, stop channels and timers stay consistent under every step of every thread |
| `AutoSync.TimersStep` | autosync_manager.go:155-182 | interleaved auto-sync moves the timers only as the debounce machine does |
| `AutoSync.DebouncingHolds` | autosync_manager.go:311-369 | so the debounce guarantees hold in every interleaving |
| `AutoSync.AtMostOneLoop` | autosync_manager.go:137-142 | at most one watch loop is alive, and each lock has at most one exclusive owner |
| `AutoSync.CloseOnlyOnce` | autosync_manager.go:155-166 | Stop never closes a channel that is closed already |
| `AutoSync.NewChannelNoLoop` | autosync_manager.go:90-93 | when Start replaces the stop channel no earlier loop is left to miss it |
| `AutoSync.LockOrder` | config_manager.go:125-142 | whoever holds the engine's lock waits for nothing |
| `AutoSync.UnfinishedMeansProgress` | autosync_manager.go:76-230 | no deadlock: in every reachable state an unfinished call leaves some thread able to run, with writers blocking new readers |
| `AutoSync.NothingArmedAfterStop` | autosync_manager.go:168-203 | if no request started by SetConfig is in flight when Stop cancels the timer, nothing is armed up to and including Stop's return |
| `AutoSync.QuietLasts` | autosync_manager.go:155-204 | and nothing becomes armed until a Start sets the running flag again |
| `Schedules.FiringsStartSyncs` | autosync_manager.go:320-323 | a step of any run logs a firing exactly when it starts one performSync, about to take the engine's lock; no thread gets into performSync otherwise |
| `Schedules.FiringLeadsToSync` | autosync_manager.go:320-369 | from every firing of every run the schedule can go on until the performSync it started has set lastSync to the current time and returned |
| `Schedules.OnlySyncsStamp` | autosync_manager.go:365-368 | lastSync changes when a performSync stamps the time and returns, and at no other step |
| `Schedules.EverythingCanFinish` | autosync_manager.go:76-369 | at every point of every run, some schedule without a tick of the clock finishes all calls and tasks under way; every performSync among them can come to its stamp |
| `Schedules.TimerCanFire` | autosync_manager.go:320-323 | an armed timer can fire once the clock has come to its deadline |
| `Schedules.RunningMeansWatching` | autosync_manager.go:84-142 | while auto-sync runs, its watcher and stop channel are open and, unless Start is still at work, exactly one loop is alive and not on its way out |
| `Schedules.NoRaces` | autosync_manager.go:76-369 | no two threads are ever both at a statement that touches the manager's locked fields, and none reads or writes the engine's configuration beside a writer |
| `Schedules.WritersFirst` | config_manager.go:125-127 | a reader does not get past a waiting writer of the engine's lock |
| `SoloCalls.StartWorks` | autosync_manager.go:76-152 | run on its own, a Start sets the delay and the running flag and leaves an open watcher, a fresh stop channel and one new loop in its select, and nothing else changed |
| `SoloCalls.StartFails` | autosync_manager.go:119-127 | a Start whose file cannot be watched closes the watcher and leaves auto-sync off, with delay and channel replaced |
| `SoloCalls.StartRefused` | autosync_manager.go:80-88 | a Start while running, or without a watcher, changes nothing |
| `SoloCalls.StopWorks` | autosync_manager.go:155-204 | a Stop ends the loop, closes the channel and the watcher, clears the flag, disarms the timer and empties its field, and changes nothing else |
| `SoloCalls.StopRefused` | autosync_manager.go:158-161 | a Stop while not running changes nothing |
| `SoloCalls.StatusOnlyLooks` | autosync_manager.go:207-230 | GetStatus changes nothing |
| `SoloCalls.SetConfigRequests` | config_manager.go:136-140 | while auto-sync runs, a SetConfig that saves leaves exactly one timer armed, due one delay from now |
| `SoloCalls.SetConfigQuietly` | config_manager.go:136-140 | while it does not run, or when saving fails, SetConfig requests nothing |
| `SoloCalls.EventRequests` | autosync_manager.go:239-258 | a file event leaves exactly one timer armed, due one delay from now, and the loop back in its select |
| `SoloCalls.IgnoredEvent` | autosync_manager.go:244-247 | an ignored one leaves no trace |
| `SoloCalls.FiringSyncs` | autosync_manager.go:327-369 | a firing whose performSync reloads the configuration and has destinations visits each and sets lastSync to the current time, and changes nothing else |
| `SoloCalls.FiringWithoutSync` | autosync_manager.go:328-338 | one that cannot reload, or has no destination, leaves lastSync as it was |
| `SoloCalls.EventLeadsToSync` | autosync_manager.go:239-369 | whenever auto-sync runs and no Start or Stop is under way, a file event can lead to one request, one firing and one sync, exactly one delay later |
| `LateRequests.LateRequestArms` | config_manager.go:136-139 | from every reachable cancellation with a request in flight, the schedule can go on to a return of Stop at which a timer is armed |
| `LateRequests.ArmedAtReturnExactly` | autosync_manager.go:168-203 | every continuation to Stop's return leaves nothing armed exactly when no request is in flight at the cancellation |
| `LateRequests.TimerCanOutliveStop` | autosync_manager.go:168-203 | a schedule from the start in which Stop has returned and a timer is armed, for every delay |
| `Substitution.SubstituteString` | mcp_types.go:161-192 | the result is that of the replacement chain in some order of both maps, and equals token-wise lookup for every tokenisation of the input |
| `Substitution.ChainIsLookup` | mcp_types.go:161-192 | for every order of both maps the chain equals lookup: input variable, given environment, non-empty system variable, else unchanged |
| `Substitution.WholeLoop` | mcp_types.go:166-174 | over a map in which no value mentions another key that changes, the loop binds all variables at once, whatever the order |
| `Substitution.ChainBinds` | mcp_types.go:161-192 | for values that contain references themselves, the chain binds the inputs, then the environment, then asks the system, for every order of both maps |
| `Substitution.OsExpands` | mcp_types.go:178-189 | the regular-expression pass replaces each remaining reference on its own |
| `Placeholders.InTheMiddle` | mcp_types.go:161-192 | a placeholder between any tokens becomes what it becomes on its own, for every order of both maps |
| `Placeholders.InputWins` | mcp_types.go:166-169 | a reference to a bound input becomes the input's value, whatever environment and system say |
| `Placeholders.EnvironmentNext` | mcp_types.go:171-174 | any other name in the given environment becomes its value there |
| `Placeholders.SystemLast` | mcp_types.go:178-187 | a name bound by neither map and not starting with `input:` becomes the system's non-empty value for it, which is not substituted again |
| `Placeholders.UnknownStays` | mcp_types.go:185-188 | a name that nobody knows, or that the system has as the empty string, stays a reference |
| `Placeholders.UnboundInputStays` | mcp_types.go:181-184 | a reference to an unbound input stays, even if the system has a variable of that very name |
| `Placeholders.PlainTextStays` | mcp_types.go:161-192 | a string without an opening or without a closing brace is left alone, for all tables and systems |
| `Placeholders.EmptyReferenceStays` | mcp_types.go:178-179 | a reference without a name stays unless the environment has a variable without one |
| `Placeholders.SystemPass` | mcp_types.go:178-189 | the expression matches from the first opening to the next closing brace, whatever is in between, and goes on after it |
| `Substitution.OrderShowsExactly` | mcp_types.go:171-189 | all orders of the environment agree on every string and every system exactly when no value mentions another variable that does not stand for its own reference |
| `Substitution.LoopOrderShowsExactly` | mcp_types.go:166-174 | either loop on its own gives the same string in all orders, for every string, exactly under that condition on its map |
| `Substitution.MentionIsVisible` | mcp_types.go:166-174 | a reference to a variable that mentions another comes out with the other one bound or not, depending on the order |
| `Substitution.BraceInKeyIsVisible` | mcp_types.go:171-174 | a closing brace in a key makes it match across the end of another reference |
| `McpConfig.SubstituteVariables` | mcp_types.go:121-158 | keys, lengths, nil-ness, transport and metadata are kept; every value, argument, header, URL and command is substituted |
| `McpConfig.ToConfig` | mcp_types.go:73-118 | the servers of the first of the three sections that is present, even if it is empty, each enabled and labelled, substituted only if asked; inputs are kept as metadata only with the first section |
| `McpConfig.ImportKeepsReferences` | mcp_types.go:99-105 | importing leaves input references and unset variables as written |
| `DuplicateNames.HandleDuplicateName` | validation.go:274-294 | the result is not taken and is the first free one of the names tried (the base and a number, or the longest stem that fits and the next number) after at most n+1 rounds for n taken names, and respects the length limit; it panics exactly when the empty base and every fitting suffix are taken |
| `DuplicateNames.CandidateIsTried` | validation.go:278-290 | each round tries exactly one name: the base and its number if that fits, else at least one character of the base, as many as fit, and the next number |
| `Text.DecimalReads` | validation.go:279-289 | a printed number reads back as itself and has no leading zero |
| `DuplicateNames.CandidatesDistinct` | validation.go:278-291 | candidates of different rounds differ, also across the switch to truncated bases |
| `DuplicateNames.CandidateDefined` | validation.go:283-289 | the slice is in range except for an empty base whose suffix does not fit |
| `DuplicateNames.CandidateFits` | validation.go:283-290 | with room for the suffix the clamp to one character is never reached |
| `DuplicateNames.EmptyBaseCanRunOut` | validation.go:283-289 | a name map and a limit on which the slice is out of range |
| `Sanitizer.ReplacementSanitizer.Sanitize` | validation.go:206-237 | for every order: non-empty, within the limit, no doubled hyphen or underscore, clean start, clean end unless truncated, no removed character unless it is the fallback |
| `Sanitizer.SanitizeOrderIndependent` | validation.go:207-210 | non-interfering one-character keys make every order one simultaneous substitution |
| `Sanitizer.OrderReachesResult` | validation.go:206-237 | a table whose interference survives the clean-up |
| `SanitizerLaws.CoreDrops` | validation.go:212-217 | after the replacements, a character on the removal list makes no difference anywhere |
| `SanitizerLaws.CoreCollapses` | validation.go:219-221 | two hyphens or two underscores in a row count as one |
| `SanitizerLaws.CoreTrims` | validation.go:223-224 | hyphens and underscores around a name do not matter |
| `SanitizerLaws.CoreOfClean` | validation.go:212-224 | a name that none of these rules changes is left as it is |
| `NameShape.OrderShowsExactly` | validation.go:207-210 | for one-character keys, all orders agree on every name exactly when no entry's text contains another key that changes |
| `NameShape.InterferenceIsVisible` | validation.go:207-210 | any entry that feeds another one makes two orders disagree on its key |
| `NameShape.OrderIrrelevant` | presets/presets.go:300-302 | without interference any order of the replacement map is the simultaneous substitution |
| `ClaudeNames.SanitizeForClaude` | presets/presets.go:289-321 | the result always passes the preset's own pattern, whatever the map order |
| `ClaudeNames.FixedPoints` | presets/presets.go:275-277 | a name needs no sanitizing exactly when it matches the pattern, has no double hyphen and no edge hyphen or underscore |
| `ClaudeNames.TwiceIsOnce` | presets/presets.go:309-318 | a second pass changes nothing exactly when the first does not end in a hyphen or underscore |
| `ClaudeNames.ThriceIsTwice` | presets/presets.go:309-318 | a third pass never changes anything |
| `ClaudeNames.OnePassIsNotEnough` | presets/presets.go:316-318 | a name on which truncation leaves a hyphen for the second pass |
| `SanitizerLaws.ClaudeReplaces` | presets/presets.go:293-302 | a slash, a space or a dot anywhere counts as a hyphen |
| `SanitizerLaws.ClaudeDrops` | presets/presets.go:304-306 | any other character outside the pattern makes no difference |
| `SanitizerLaws.PrefixDoesNotShow` | presets/presets.go:290-306 | removing the prefix is never seen in the result, since an at sign is dropped anyway |
| `SanitizerLaws.ClaudeCollapses` | presets/presets.go:309 | two hyphens count as one |
| `SanitizerLaws.ClaudeTrims` | presets/presets.go:310 | hyphens and underscores around a name do not matter |
| `SanitizerLaws.ClaudeOfClean` | presets/presets.go:312-318 | a name that none of these rules changes comes out as its first 64 characters, and the empty one as the fallback |
| `ToolNames.FormatUndoesParse` | claude_integration.go:152-165 | whatever the parser accepts, the printer gives back; what it rejects it returns whole |
| `ToolNames.Accepted` | claude_integration.go:157-165 | the parser accepts exactly the printed forms |
| `ToolNames.ParseUndoesFormat` | claude_integration.go:152-165 | parsing undoes printing exactly for server names without two underscores in a row and not ending in one, for every tool |
| `ToolNames.SanitizedNamesRoundTrip` | validation.go:219-234 | a sanitized name survives the round trip exactly when it does not end in an underscore, which only truncation can cause |
| `Paths.CleanBelowBase` | storage.go:179-184 | below any base path, relative or not and clean or not, plain elements are appended to the cleaned base |
| `Paths.PathOfPlainKey` | storage.go:179-190 | through Join and Clean, a plain key is one directory per segment below the base, for every base path |
| `Paths.PathRoundTrip` | storage.go:192-201 | listing gives back the key, slashes as colons |
| `Paths.SameFile` | storage.go:179-190 | two plain keys share a file exactly when they differ at most in separators |
| `PathLaws.KeyOfSegments` | storage.go:179-190 | the key made of given segments is the file named by the last one, in the directories named by the others, below the cleaned base path |
| `PathLaws.ExtensionIsShared` | storage.go:185-188 | a key and the same key followed by the extension are one file |
| `PathLaws.CleanDropsDots` | storage.go:182 | an empty element or a dot between two slashes makes no difference to the cleaned path |
| `PathLaws.CleanGoesBack` | storage.go:182 | a name followed by two dots cancels |
| `PathLaws.CleanStaysInRoot` | storage.go:182 | there is nothing above the root |
| `PathLaws.CleanOfClean` | storage.go:182 | steps up followed by names, or a rooted path of names, is clean |
| `Storage.FileStorage.Read` | storage.go:45-59 | the data at the key's file, or not found, or another error |
| `Storage.FileStorage.Write` | storage.go:62-93 | exactly the key's file changes, or nothing does and there is an error |
| `Storage.FileStorage.Delete` | storage.go:96-109 | exactly the key's file goes; a missing one and any other failure are different errors and no change |
| `Storage.FileStorage.List` | storage.go:112-142 | each file below the base whose key has the prefix, once, under that key |
| `Storage.MemoryStorage.Read` | storage.go:219-232 | the data under the key, or not found |
| `Storage.MemoryStorage.Write` | storage.go:235-252 | exactly the key's entry changes |
| `Storage.MemoryStorage.Delete` | storage.go:255-265 | exactly the key's entry goes; a missing one is an error and no change |
| `Storage.MemoryStorage.List` | storage.go:268-280 | each key with the prefix, once |
| `Storage.StepRefines` | storage.go:45-142 | each operation on files answers like the map over canonical keys and keeps the correspondence |
| `Storage.RunsAgree` | storage.go:45-142 | so does every run, on keys with colons or slashes |
| `Storage.FileStorageRefinesMemoryStorage` | storage.go:203-280 | from empty, for every base path, and on keys without slashes, no run tells the two storages apart |
| `StorageRuns.SideBySide` | storage.go:45-280 | two empty storages, one of each kind, driven by the same operations on keys without slashes, give the same answers |
| `Backups.Engine.ListBackups` | backup_manager.go:72-102 | exactly the records that can be read under keys with the metadata prefix, newest first |
| `Backups.Engine.CreateBackup` | backup_manager.go:14-69 | the new state for every pattern of write failures, clean-up included; a record, exactly if both writes work, with its time, id, path, the size of the configuration, kind manual and the given description; a failed one leaves the storage unchanged |
| `Backups.Engine.CleanupOldBackups` | backup_manager.go:147-170 | what is beyond the limit of a newest-first listing is deleted, data and metadata key |
| `Backups.Engine.RestoreBackup` | backup_manager.go:105-144 | the new state, safety backup first, whether or not saving works; what cannot be read or parsed changes nothing; a stored configuration becomes the one in memory and, if saving works, the persisted one |
| `Backups.Engine.SaveConfig` | config_manager.go:78-104 | what is persisted afterwards is the configuration in memory; nothing else changes |
| `Backups.Engine.SetConfig` | config_manager.go:125-142 | memory always, what is persisted only if the write works |
| `BackupSafety.FilesAreWellPlaced` | backup_manager.go:43-165 | on a FileStorage both spellings of a metadata key are one file, listing names it, and no backup or saved configuration shares a file with another |
| `BackupSafety.ListingShowsVault` | backup_manager.go:72-102 | listing shows each existing backup once, strictly newest first |
| `BackupSafety.CreateRetains` | backup_manager.go:57-63 | a failure-free CreateBackup leaves exactly the min(n+1, m) newest, the new one among them |
| `BackupSafety.FailedCreateKeepsVault` | backup_manager.go:42-55 | a failing one leaves every backup intact and adds none |
| `BackupRuns.RunHolds` | backup_manager.go:14-170 | every run of create, restore and set-config with any write failures keeps data and metadata together, each backup exactly as an earlier entry captured it |
| `BackupRuns.EveryListedBackupHasData` | backup_manager.go:14-170 | at every point of every run from an empty FileStorage, a listed backup was made by an earlier create or restore whose writes worked; time, id, path, size, kind and description are those of that entry, and its data is the configuration of that moment |
| `BackupRuns.RestoreBringsBack` | backup_manager.go:105-144 | at every point of every run, restoring a listed backup sets memory and persisted configuration to the configuration it was made from |
| `BackupRuns.RetentionOverRuns` | backup_manager.go:57-63 | at every point of every run, a create or a restore of something readable whose writes work puts its own record at the head of the listing and keeps as many of the others as the limit allows; every other operation leaves the listing unchanged |
| `BackupRuns.UndoOverRuns` | backup_manager.go:119-134 | in any run, restoring the safety backup right after a restore of any readable data brings the configuration back, in memory and persisted |
| `BackupData.DataExactlyForListed` | backup_manager.go:147-170 | at every point of every run on files, a backup's data is there exactly when the backup is listed: clean-up and failed operations leave none behind |
| `BackupSafety.RestoreSetsBoth` | backup_manager.go:105-134 | restoring sets memory and persisted configuration to the stored one, even if the restored backup is evicted meanwhile |
| `BackupRuns.RestoreIsUndone` | backup_manager.go:119-134 | the same for one state and its vault: even a backup evicted meanwhile can have been restored |
| `MemoryBackups.ListsAll` | backup_manager.go:158-166 | on a MemoryStorage n backups leave n listed, under every limit |
| `MemoryBackups.Overflows` | backup_manager.go:158-166 | a run of m + 1 backups on a MemoryStorage after which m + 1 are listed and one has no data |
| `MemoryBackups.Retention` | backup_manager.go:158-166 | on a MemoryStorage the retention bound holds exactly when fewer than m were listed before; otherwise some listed backup has no data |
| `ServerDiff.IsServerEqual` | engine_impl.go:612-649 | the length tests and one-way loops decide exact equality of the six compared fields |
| `ServerDiff.CalculateChanges` | engine_impl.go:537-607 | every name that differs has its one change, with the values of both sides, added before updated before removed ones, and applying the list to the old servers gives the new ones up to JSON |
| `ServerDiff.ServersOfSides` | engine_impl.go:546-565 | a master configuration has its servers, a tree those under `mcpServers` if that is a map of servers, and anything else none |
| `ServerDiff.DiffPatches` | engine_impl.go:567-604 | any list with one right change per differing name patches old into new |
| `ServerDiff.NoChangesIffSame` | engine_impl.go:567-604 | the list is empty exactly when names and JSON agree |
| `ServerDiff.DiffLength` | engine_impl.go:567-604 | its length is the symmetric difference plus the changed common names |
| `Merge.MergeConfigs` | import_export.go:153-226 | the merge in every iteration order: winners, conflicts, header, copied metadata and counts; an error only for no arguments |
| `Merge.LastOneWins` | import_export.go:207-209 | each merged server is the one of the last configuration naming it |
| `Merge.ConflictsChain` | import_export.go:187-204 | each server's conflict records form a chain, one fewer than the configurations naming it |
| `Merge.HeaderOfFirst` | import_export.go:166-173 | version and settings are those of the first configuration whose version is not empty, the defaults without one |
| `Merge.RecordsExactly` | import_export.go:183-204 | a server's records, in order, go through the configurations that have it, each overriding the one before, under their numbers from one on |
| `Merge.MergedFromSome` | import_export.go:186-210 | each merged server comes from some configuration |
| `Merge.MetadataExactly` | import_export.go:212-217 | exactly the keys of some configuration are copied, except for `conflicts` |
| `Merge.MetadataOfLast` | import_export.go:212-217 | of several configurations with a key the last one's value is kept |
| `Merge.VisitServer` | import_export.go:186-210 | one overwrite keeps the account of winners, sources and records for all names |
| `Import.ImportServers` | import_export.go:101-128 | the import ends as it does in some iteration order, and leaves what that order leaves |
| `Import.SucceedsExactly` | import_export.go:101-128 | in every order an import gets through exactly when nothing stops it, and then all orders leave the same |
| `Import.DoneExactly` | import_export.go:101-126 | an import succeeds, in every order, exactly when each server that is not skipped as present is acceptable and there is a map to put it in, or may be skipped |
| `Import.DoneMeans` | import_export.go:101-126 | a successful import leaves, name by name, the file's server where it may be put and is acceptable and the current one otherwise; in replace mode the acceptable ones of the file alone |
| `Import.PanicsExactly` | import_export.go:101-126 | some order panics exactly when the map is nil outside replace mode and a server would be imported; all do exactly when none is rejected as well |
| `Import.ImportTwice` | import_export.go:101-128 | importing the same file again changes nothing, in every mode and every order |
| `Import.ImportPreserves` | import_export.go:110-113 | outside replace mode, servers not named or not to be overwritten are kept, however the import ends |
| `Import.RejectedImportTraces` | import_export.go:116-122 | an import with a rejected server fails in every order, and leaves memory as it was in every order exactly when nothing was cleared and every acceptable server is there already |
| `TargetConfig.ShouldSyncToTarget` | destination_manager.go:146-162 | exclusion beats inclusion, and `all` includes every target |
| `TargetConfig.GenerateFlat` | sync.go:189-219 | exactly the enabled, eligible servers, under their final names |
| `TargetConfig.GenerateProjectNested` | sync.go:228-307 | a document that some iteration orders make of the file's fields, or of nothing if there is no file, with every other field as it was in the file; a panic exactly when the file is there and is not a JSON object |
| `TargetEntries.GlobalEntries` | sync.go:245-270 | the top-level section has an entry for exactly the servers that are not project-specific, are enabled, not excluded, and meant for this target or for all |
| `TargetEntries.ProjectEntries` | sync.go:270-303 | a project that no project-specific server names stays as it was; any other gets an entry for exactly those that do and keeps its other fields |
| `TargetEntries.FlatEntries` | sync.go:193-215 | a flat document has an entry for exactly the enabled, not excluded servers meant for this target or for all |
| `TargetEntries.OthersStay` | sync.go:233-306 | every other field of the existing document stays, a `projects` field that is no object included |
| `TargetEntries.BlanksAround` | helpers.go:29-31 | blanks around a server's name do not matter |
| `TargetEntries.SpacesBecomeHyphens` | helpers.go:29-36 | inside a trimmed name each space, and nothing else, becomes a hyphen |
| `TargetConfig.SectionsExactly` | sync.go:245-268 | the sections that the loop can build in some order are exactly those with the entry of some server of that name under each final name |
| `TargetConfig.MakesExactly` | sync.go:228-307 | the documents that some orders make are exactly those with such sections, for projects that have servers, and everything else as it was |
| `TargetConfig.SectionUnique` | sync.go:245-268 | without colliding names a section does not depend on the order |
| `TargetConfig.FixedPointExactly` | sync.go:228-307 | regenerating from the output changes nothing, whatever orders the two runs take, exactly when no two servers of one section share a name with different content |
| `TargetConfig.UnsanitizedSettles` | sync.go:262-266 | where names are not sanitized, regenerating never changes anything |
| `TargetConfig.SanitizedCanAlternate` | sync.go:262-266 | two names that differ in a space and a hyphen can take turns |

## Left out

- gRPC service, client, daemon life cycle, lock file and protocol buffers: I/O and plumbing.
- File watching, real clocks and atomic renames: events, time and files are abstract; a crash between two file operations is not modelled.
- Event bus delivery: emitting does nothing in the model.
- `Storage.FileStorage.Write`: directories are not modelled, so a key whose directory would be another key's file is outside the claims, which require segments without `.json`; a temporary file left by a failed write is not modelled; the base path is the one after home expansion.
- `Storage.FileStorage.Read`: byte slices are values, so copying to avoid aliasing and watchers are not captured.
- `Backups.Engine.CreateBackup`: the length of a configuration's JSON and the printed form of a time are parameters; times are assumed strictly increasing where lemmas say so.
- `Backups.Engine.ListBackups`: entries with equal timestamps come in one fixed order, while Go's sort may give any.
- `Sanitizer.ReplacementSanitizer.Sanitize`: lengths count characters, so truncation inside a multi-byte character is not modelled.
- `Sanitizer.SanitizeOrderIndependent`: the condition is exact for the replacement loop (`NameShape.OrderShowsExactly`) and sufficient for the final result, since later clean-up can hide an interference.
- `Substitution.OrderShowsExactly`: for the environment without inputs; the condition on the input map is exact for its own loop (`Substitution.LoopOrderShowsExactly`), since a later environment can undo a difference.
- `Substitution.ChainIsLookup`: inputs that no token sequence renders, such as a reference inside a reference, have no token-wise meaning and are not covered.
- `ServerDiff.CalculateChanges`: a tree whose `mcpServers` holds typed server configurations counts as having no servers, as in the code, so end-to-end claims about repeated syncs are not made.
- `AutoSync.UnfinishedMeansProgress`: Start and Stop calls that overlap are excluded, as callers must serialise them; fairness is not modelled, so progress means some step is enabled.
- `Schedules.EverythingCanFinish`: which schedule and outcomes the runtime picks is open, so it says what can happen, not what must.
- `SoloCalls.StartWorks`: the settings persisted under the engine's lock, the ignore patterns and the target lists are not part of the state.
- `Schedules.NoRaces`: the unlocked reads of the running flag in SetConfig, of the watcher and the stop channel by the loop and by Stop, and of the destinations map are atomic steps outside its claim.
- `Merge.MergeConfigs`: the three bookkeeping entries that overwrite copied metadata of the same name are separate fields, and the merge time is left out.
- `McpConfig.ToConfig`: the modification time is left out.
- `Backups.Engine.SetConfig`: a nil configuration, which is refused, has no counterpart among values.
- `Import.ImportServers`: parsing before and saving after the loop; when saving fails the imported servers stay in memory.
- LoadConfig: decoding over an existing configuration merges field by field, which the abstract codec does not express.
- PreviewSync and the sync manager's own one-entry comparison: not exact diffs.
- getDestinationsToSync, ListTargets, server CRUD, transport validation, project scanning, Redis storage, export formats: easy members or I/O.
