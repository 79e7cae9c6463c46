# climon: a verified model of its shared state and text formats

climon monitors command-line sessions. Several processes of it, in two languages, share session files,
configuration files, byte streams and command lines. This project models that shared state in Dafny and proves
what its users rely on: that the session lock excludes, that no update is lost, that what one side writes the
other side reads, and exactly when it does not.

    dafny verify dfyconfig.toml

## What is modelled

- **Session store.** `PatchLock` is a step machine: any number of processes, crashes, a filesystem of lock
  directories with owner and claim files, one step for each filesystem call or decision of acquire, recover,
  quarantine, claim and release. `PatchLockProofs` holds the inductive invariant, `PatchLockRuns` the theorems
  over runs, `PatchFields` what they leave in each field, `PatchLockProgress` runs that take, commit and recover.
  `PatchQueue` is the in-process queue, which `PatchQueueRuns` ties to the step machines of all sessions of a
  process; `SessionMeta` and `UserPause` are the record and its pause rules.
- **Configuration.** `ConfigTree` and `ConfigMerge` are the delta engine on trees without key order. `Text`,
  `JsonValue`, `JsonPrint`, `JsonParse`, `JsonRoundTrip` and `JsonGrammar` are JSON over UTF-16 code units;
  `JsoncStrip`, `JsoncGrammar`, `JsoncRender`, `JsoncRenderer`, `JsoncLayout`, `JsoncRoundTrip` and `JsoncTheorems`
  the files with comments, `Sorting` the order of their keys. `ConfigFiles`, `ConfigText`, `ConfigLoad`, `ConfigStore`
  and `ConfigWriters` carry the merge on save through real file texts and load normalization to runs of many writers.
  `ConfigResolve` is the cascade of directories.
- **Wire.** `Frames` and `Mux` are the stream decoders, `SpawnAuth` the signed messages and the replay guard,
  `Election` the settle phase of two servers that promote at once.
- **Command line.** `Argv` and `ArgvRoundTrip` hold the server's builders and the client's parser.
- **Smaller parts.** `CsvLookup`, `Utf8`, `Lines`, `Telemetry`, `AttachInput`, `AttachOutput`, `AutoColor`.

## Where the code does not do what one would expect

Each of these is proved, with a concrete input, an exact condition, or both.

- Two writers that each set a different field of a section that no load fills in (`remote`) undo each other: the
  loaded section is undefined, so each save replaces it whole
  (`ConfigWriters.WritersOfAbsentSectionUndoEachOther`, `ConfigWriters.TwoWritersOfEmptyFile`; the exact condition is
  `ConfigMerge.UnchangedIsUntouchedIffAligned`).
- A patch that commits while the session is user-paused writes the paused status and the empty attention fields that
  its read showed over the stored ones (`PatchFields.PauseIsWrittenBack`; exactly then:
  `PatchFields.LastPatchUnlessPaused`).
- Writing a setting whose section is an array in the target file is lost (`ConfigResolve.ArraySectionLosesWrite`;
  exactly then: `ConfigResolve.ReadYourWrites`).
- The mux decoder fails not only on oversize headers but also on an empty data frame and on control frames that
  are not JSON (`Mux.FailsExactlyAtBadFrame`, `Mux.ShortestFailures`), and drops the messages that the failing push
  had decoded before (`Mux.ChunksDoNotMatter`). Its encoders do not enforce its limit: what they write decodes
  exactly if every message fits (`Mux.DecodesExactlyWhatFits`).
- A local write made in the home directory itself is read back only if its `.climon` is the global home
  (`ConfigResolve.LocalWriteIsRead`).
- A parameter that is marked for redaction is sent unchanged, whatever the sanitizer does, exactly if it is a
  diagnostic and not a string (`Telemetry.RedactedValueLeavesExactlyIf`, `Telemetry.SendsDiagnosticNumber`).
- A chunk boundary inside a multi-byte character of the log changes the text, and can change what is sent
  (`Utf8.DecodesInPiecesExactlyIf`, `Telemetry.CutInsideCharacterShows`).
- A state file left behind by an earlier server can make both servers stand down (`Election.OldFileStopsBoth`). The
  winner can be asked to stop exactly if some left-over file makes its reader decide otherwise than the real peer's
  file would (`Election.WinnerIsSafeExactlyWithHarmlessFiles`, `Election.HarmfulFiles`).
- A request for control drops the keys after it in the same read, so a session can depend on how its input was cut
  (`AttachInput.RequestDropsItsRead`; when that is missed, exactly: `AttachInput.MayBeDroppedExactlyIf`).
- A detach prefix typed while displaced reaches the PTY when the next key is typed with control
  (`AttachInput.PairAcrossChangeOfControl`; exactly then: `AttachInput.ControlDecidesExactlyIf`).
- A command that starts with a token the client takes for a flag does not survive the command line
  (`ArgvRoundTrip.RunRoundTrip`, `ArgvRoundTrip.SpawnRoundTrip`).
- The comment above `candidateConfigDirs` speaks of directories under the home; the code decides by the text of
  the relative path, so below a directory of the home whose name starts with two dots only the working directory's
  own configuration is read, and that of the directories between is not (`ConfigResolve.DotsDirectoryIsMissed`; the
  exact condition is `ConfigResolve.WalkIsCompleteExactlyIf`).

## Assumptions

- Lock: directory identities and owner tokens are unique; a stale verdict is only given about a process that takes
  no further step; no process crashes, and no file operation fails for another reason than a missing or existing
  path, between making the recovery directory and removing it; owner and claim files are written in one step.
- Replay guard: the clock never goes back and a nonce always carries the same time. `SpawnAuth.AssumptionsAreNeeded`
  shows that both are needed.
- Signed messages: nonces and printed times hold no line feed, and different times print differently.
- Election: the settle loop reads the peer's home at least once before its deadline, and the last read comes after
  the host's own state file is written.
- Configuration: the registry gives every section a load fills in as an object of JSON values, `session.priority` as
  a number and the supported version (`ConfigLoad.RulesOk`; `ConfigLoad.RulesExist` shows that a registry can).
- Printer: the purposes in the settings registry have no line break.
- Parameters stand for: the settings registry and its defaults, the reading of number tokens as JavaScript numbers,
  color names as `parseColorMode` reads them, HMAC, the JSON of control messages, the scrubbing of diagnostic
  texts, the placeholders of a template, and how Rust reads as a float a text that is no plain integer.

## Model

| member | source | states |
|---|---|---|
| `PatchLockRuns.MutualExclusion` | src/store.ts:697-740 | In every reachable state of any number of processes, at most one live process is between acquire and release, and the directory at the lock path is the one it created, with the owner file it wrote |
| `PatchLockRuns.NoTheft` | src/store.ts:574-740 | No step of any other process (acquirer, backing-off acquirer, reclaimer, releaser) changes the main lock path while a live process counts it as its own, from its mkdir to its own removal |
| `PatchLockRuns.RecoveryExclusion` | src/store.ts:645-667 | At most one process is inside the recovery section, and its directory is the one at the `.reclaim` path |
| `PatchLockRuns.OnlyDeadLocksAreReclaimed` | src/store.ts:574-643 | A directory about to be renamed away by a reclaimer is still the one its snapshots saw, was made by a process that takes no further step, and no live process holds the lock |
| `PatchLockRuns.ClaimsNeverContend` | src/store.ts:496-561 | Under the recovery lock no reclaimer ever reaches the branches that read, judge or move another's claim file |
| `PatchLockRuns.NoLostUpdate` | src/store.ts:750-789 | After any run the stored record is the fold, in lock order, of overlay, validate, merge over the committed patches; the patches of one process commit in call order |
| `PatchLockRuns.RejectedCallChangesNothing` | src/store.ts:757-771 | A call that finds no record when it reads, or whose validator or patch function declines, leaves record and files as they are in that step, and in no state of the run, before or after, does the log hold a commit of it |
| `PatchLockRuns.CommitsWereAccepted` | src/store.ts:757-771 | Every call that committed was accepted by its validator and patch function on the record that the calls before it had left |
| `PatchLockRuns.FailedCallNeverCommits` | src/store.ts:496-643 | An exception of the quarantine routine ends the call: in no state of the run, before or after, does the log hold a commit of it |
| `PatchFields.StoredFields` | src/store.ts:82-93 | Over every run, field by field: status, reason, both attention fields, the pause marker and every other key hold the last value that a committed patch gave them or what they held at the start; where a commit read a paused live record, the four fields of the overlay it did not set hold what the read showed; the time is that of the last commit |
| `PatchFields.LastPatchUnlessPaused` | src/store.ts:82-93 | A field of the overlay holds the value of the last committed patch that sets it, unless a later commit read a paused live record; then it holds what such a read shows |
| `PatchFields.PauseIsWrittenBack` | src/store.ts:750-789 | An input: a running session is marked as paused and then renamed; no patch set a status, and the stored one is paused |
| `PatchLockRuns.ForeignLockIsLeft` | src/store.ts:357-424 | If the lock path holds another directory or another owner than the releaser's, the release, running alone, changes no file |
| `PatchLockRuns.ReleaseCompletes` | src/store.ts:357-424 | The release of a live holder, running alone, always recognizes its own directory and ends the call with the lock path free and the record untouched |
| `PatchLockProgress.FreeLockIsTaken` | src/store.ts:697-771 | A process that runs alone takes a free lock, runs its request on the stored record, logs one commit and leaves the lock free |
| `PatchLockProgress.AbandonedLockIsRecovered` | src/store.ts:574-740 | A process that finds the directory of a dead holder can, running alone, quarantine it under the recovery lock, take the lock and commit: a dead holder never blocks the lock for good |
| `PatchLockProgress.BackOffFreesLock` | src/store.ts:697-740 | A process that has made the lock directory while another one is recovering can, running alone, remove it again, leave recovery directory and record as they are, and retry |
| `SessionMeta.LaterPatchWins` | src/store.ts:769 | After two patches each field by name holds the second one's value, else the first one's, else the old one, and the time is the second one's |
| `SessionMeta.DisjointPatchesBothSurvive` | src/store.ts:769 | Patches of different fields commute, and the record then holds everything that each of them sets |
| `PatchLockProofs.ActKeepsInv` | src/store.ts:496-740 | One step of one process keeps the inductive invariant, and other processes see of it only what `Effect` allows |
| `PatchLockProofs.RunKeepsInv` | src/store.ts:496-740 | The invariant holds in every state of every run |
| `PatchQueue.StartsInOrder` | src/store.ts:756-789 | When a queued call can run, every earlier call of its session has settled and no other call of it can run |
| `PatchQueue.SomeCallCanRun` | src/store.ts:776-788 | While a call is unsettled, it or an earlier one of its session can run: a rejected call never blocks later ones |
| `PatchQueue.RunsFirstWaiting` | src/store.ts:756-789 | The chain of promises is a queue: the call that can run is exactly the first unsettled call of its session in call order |
| `PatchQueue.Queues.Enqueue` | src/store.ts:756-782 | A call awaits the tail of its session and becomes the new tail; the chain invariant is kept, and the waiting calls of that session, and of no other, get the call at the end |
| `PatchQueue.Queues.Settle` | src/store.ts:776-788 | A call settles by value or error; the session is forgotten exactly if the call is still its tail; the chain invariant is kept, and the call leaves the front of its session's waiting calls |
| `PatchQueueRuns.StartMirrors` | src/store.ts:756-789 | The head of a process's queue in the step machine is the call that the chain lets run, and an idle process with an empty queue has none that can run |
| `PatchQueueRuns.RunMirrorsChain` | src/store.ts:750-789 | Over every run of any number of sessions' step machines in any interleaving, the calls of each process for all its sessions are those of one shared map of promise chains that only takes calls and settles calls it lets run: every machine's queue is refined by the map |
| `UserPause.PauseSurvivesPatch` | src/store.ts:82-93 | One daemon patch leaves a user pause in force exactly if it clears neither the marker nor the liveness of the status, and then a read shows the same four fields |
| `UserPause.RunStep` | src/store.ts:750-789 | In a sequence of calls each acts on what the calls before it left |
| `UserPause.PauseIsSticky` | src/store.ts:10-15 | Through any sequence of live daemon patches and repeated pause requests a read keeps showing paused, reason running, and no attention fields |
| `UserPause.PauseIsStickyOnDisk` | src/store.ts:750-789 | In every run of any number of processes over the lock, as long as the calls that commit are live patches and pause requests, a user pause stays in force and every read shows it |
| `UserPause.TerminalShows` | src/store.ts:82-93 | A terminal status shows through whatever the marker says, and stays shown through browser requests and patches that set no status |
| `UserPause.ResumeExactlyWhenShownPaused` | src/server/server.ts:462-474 | A browser resume is accepted exactly when a read shows paused, and then clears the pause; otherwise it changes nothing |
| `UserPause.PauseThenResume` | src/server/server.ts:462-474 | A pause request is accepted exactly when the shown status is live and otherwise changes nothing; an accepted one stays shown through any live daemon activity, and a resume is accepted afterwards |
| `UserPause.BrowserRequestDoes` | src/server/server.ts:462-474 | The whole record after a dashboard request, in both cases: which shown statuses it needs, and each field it writes |
| `ConfigMerge.DiffConfig` | src/config-merge.ts:50-56 | The recursive difference of two values |
| `ConfigMerge.DiffObjectConfig` | src/config-merge.ts:16-39 | The loop over the keys of both objects computes the keywise difference, none when there are no entries |
| `ConfigMerge.ApplyObjectDelta` | src/config-merge.ts:58-81 | The loop over the entries, in whatever order, computes the keywise application |
| `ConfigMerge.ApplyConfigDelta` | src/config-merge.ts:83-92 | Applies an object delta; anything else at the root is an error |
| `ConfigMerge.ApplyDiff` | src/config-merge.ts:16-81 | Applying the difference of golden and current to golden gives current, and the difference is empty exactly when they are equal |
| `ConfigMerge.DiffOfObjects` | src/config-merge.ts:50-56 | Of two objects the difference is none exactly when they are equal and an object delta otherwise, so a save never hits the root error |
| `ConfigMerge.ApplyIdempotent` | src/config-merge.ts:58-81 | Applying a delta twice is applying it once |
| `ConfigMerge.DisjointCommute` | src/config-merge.ts:58-81 | Two deltas that share only object nodes commute on any base, also where the shared section is missing or no object |
| `ConfigMerge.UntouchedPathKept` | src/config-merge.ts:58-81 | A path the delta says nothing about, nor about anything above or below it, reads the same afterwards |
| `ConfigMerge.ChangedPathWins` | src/config-merge.ts:16-81 | A path whose value differs in golden and current, and is not an object in both, holds current's value after applying the difference to anything |
| `ConfigMerge.UnchangedIsUntouchedIffAligned` | src/config-merge.ts:16-39 | A path with the same value in both is left alone by the difference exactly if the two differ above it only inside sections that are objects in both |
| `JsoncStrip.StripComments` | src/config-jsonc.ts:31-99 | The scanning loop computes the text of all tokens but the comments, and fails where a block comment is never closed |
| `JsoncGrammar.StripIsGrammar` | src/config-jsonc.ts:31-99 | Stripping gives a text exactly if the input is a sequence of units, strings with any escapes, line comments and closed block comments, and then it is the input without the comments; it fails exactly if these end in a block comment that is never closed |
| `JsoncStrip.StripIsKeptTokens` | src/config-jsonc.ts:31-99 | Stripping fails exactly on an unterminated block comment outside strings; otherwise it concatenates the kept tokens in order |
| `JsoncStrip.LexLossless` | src/config-jsonc.ts:31-99 | The tokens are the text, in order |
| `JsoncStrip.StrippedLexesTheSame` | src/config-jsonc.ts:31-99 | The stripped text lexes to exactly the kept tokens: removing a comment never joins characters into a new comment or literal |
| `JsoncStrip.StripProperties` | src/config-jsonc.ts:31-99 | A successful strip is idempotent, copies every string literal unchanged and in order, and leaves no comment outside strings |
| `JsoncStrip.StripIdentity` | src/config-jsonc.ts:31-99 | Stripping is the identity exactly on texts with no comment outside strings |
| `JsoncStrip.LineEndIsFirst` | src/config-jsonc.ts:66-72 | A line comment ends at the first line feed or carriage return, or with the text |
| `JsoncStrip.BlockEndIsFirst` | src/config-jsonc.ts:31-99 | A block comment ends right after the first closing mark |
| `JsonGrammar.ParseIsGrammar` | src/config-jsonc.ts:13 | JSON.parse gives a value exactly for the texts of the grammar of RFC 8259 (sections 2 to 7): any white space, any spelling of strings and numbers, repeated keys; and it is the value they write |
| `JsonGrammar.FieldsAre` | src/config-jsonc.ts:13 | An object means each key with the last value written for it; no key is left twice |
| `JsonRoundTrip.EscapesAre` | src/config-jsonc.ts:121-205 | How each unit of a string is printed: short escapes, four lower-case hexadecimal digits, or as it is |
| `JsonRoundTrip.ParseStringified` | src/config-jsonc.ts:7-26 | JSON.parse undoes JSON.stringify for every JSON value, whatever its strings hold (sections 4 to 7 of RFC 8259) |
| `JsoncRender.OrderPermutes` | src/config-jsonc.ts:121-158 | Every defined key is printed exactly once, and nothing else is |
| `JsoncLayout.EarliestIndexMeans` | src/config-jsonc.ts:235-255 | A key's registry position is that of its own setting, else of the first setting below it, else the end |
| `JsoncLayout.KeysAreOrdered` | src/config-jsonc.ts:131-158 | First the keys with a registered setting at or below them, by registry position, then the others by code unit |
| `JsoncLayout.SettingIsCommented` | src/config-jsonc.ts:105-205 | Every setting of the configuration with a defined value, at any depth, stands in the rendered file with its purpose as a comment on the line above its key |
| `JsoncLayout.LayoutIs` | src/config-jsonc.ts:121-205 | The printed text unit by unit: comment line, indentation, key, value, commas and braces |
| `JsoncLayout.IndentIs` | src/config-jsonc.ts:121-205 | Two spaces for each level |
| `JsoncRenderer.RenderJsoncConfig` | src/config-jsonc.ts:105-116 | The printing loops, line by line, give the specified text of the configuration |
| `JsoncRenderer.Render` | src/config-jsonc.ts:121-205 | One object: comments, nesting by splitting and re-joining lines, separators and indentation |
| `JsoncRenderer.SortedFields` | src/config-jsonc.ts:131-158 | Known keys by earliest registry position, then unknown keys by code unit |
| `JsoncTheorems.StripRendered` | src/config-jsonc.ts:31-205 | Stripping a rendered configuration removes exactly the generated comments, given one-line purposes |
| `JsoncTheorems.ParseRendered` | src/config-jsonc.ts:7-205 | Parsing a rendered configuration gives the configuration in print order, a JSON value in which no key occurs twice; only undefined parts and numbers JSON cannot write are lost |
| `JsoncTheorems.PrintedSameTree` | src/config-jsonc.ts:121-205 | Printing changes nothing but the order of keys, at every depth |
| `JsoncTheorems.RenderParseInverse` | src/config-jsonc.ts:7-205 | For every JSON-valued configuration, parsing the rendered text gives the same configuration up to key order |
| `ConfigText.ReadWritten` | src/config.ts:123-127 | Whatever tree is written to a file, in whatever key order, reads back as what survives JSON of it |
| `ConfigText.ReadIsGrammar` | src/config.ts:123-127 | Reading any text succeeds exactly if what is left without comments is one object of the JSON grammar, and then each key holds the last value written for it |
| `ConfigText.ReadIsJson` | src/config.ts:123-127 | What is read from a file never holds anything undefined |
| `ConfigText.RewrittenReadsSame` | src/config.ts:123-127 | Writing back, in any key order, what was read from any file changes nothing that is read |
| `ConfigLoad.LoadParsed` | src/config.ts:137-188 | A load fails exactly if the file has a version that is not the number 1; otherwise every key and every field of a section is what the file gives, else what the registry gives, with the literal fallback of each of the five checked fields |
| `ConfigLoad.LoadedIsOne` | src/config.ts:143-188 | That description determines the loaded configuration |
| `ConfigLoad.NormalizeIdempotent` | src/config.ts:129-189 | Writing out a loaded configuration and loading it again changes nothing |
| `ConfigStore.Store.LoadConfig` | src/config.ts:191-202 | A load returns the view of the home, writes the defaults only where there was no file, and takes the snapshot |
| `ConfigStore.Store.SaveConfig` | src/config.ts:240-253 | A save writes the latest view with the owner's changes since its snapshot applied, moves a superseded legacy file to the backup, and moves the snapshot; an unreadable home leaves everything as it was |
| `ConfigStore.Ordered` | src/config.ts:204-238 | Every tree has an ordered form that can be rendered |
| `ConfigWriters.ViewIs` | src/config.ts:129-136 | What a load reads: the canonical file, else the legacy file, else the defaults; an unreadable file or another version is an error |
| `ConfigWriters.SavePath` | src/config.ts:191-253 | After one save every reader finds the owner's value at each path the owner changed and the old value at each path it did not, except below a section the owner added, removed or replaced whole, which then reads as in the owner's own configuration; a changed value of the type its place asks for is read back as it is |
| `ConfigWriters.IdleSaveIsInvisible` | src/config.ts:240-253 | A save by an owner who changed nothing changes no reader's view |
| `ConfigWriters.FirstLoadWritesDefaults` | src/config.ts:191-202 | The first load of a home without a configuration file leaves one that every reader loads as the normalized defaults |
| `ConfigWriters.SaveStaysReadable` | src/config.ts:132-135 | A save by an owner who left the version alone leaves a file that loads |
| `ConfigWriters.RunKeepsPath` | src/config.ts:191-253 | Over any run of loads, edits and saves by any number of writers, a path that every save spares keeps the value readers find |
| `ConfigWriters.SavedChangeSurvives` | src/config.ts:191-253 | What one writer changed and saved is what every reader finds for as long as later saves spare that path, and as it is if it has the type its place asks for: writers of different fields never undo each other |
| `ConfigWriters.LegacyIsKept` | src/config.ts:204-238 | No run of loads and saves loses the text of a legacy file: it stays in place or in the backup |
| `ConfigWriters.SnapshotIsLastSync` | src/config.ts:196-202 | The snapshot an owner's changes are measured from is its value right after its own last successful load or save |
| `ConfigWriters.WritersOfAbsentSectionUndoEachOther` | src/config.ts:156 | The exception of `SavePath` is real: two writers that each set a field of the absent `remote` section; the second save removes the first one's field |
| `ConfigWriters.TwoWritersOfEmptyFile` | src/config.ts:191-253 | The same as a concrete run of the store: a file that holds an empty object, two loads, two edits, two saves |
| `ConfigResolve.CandidateConfigDirs` | src/config.ts:264-288 | The upward walk ends and gives the `.climon` directories from the working directory up to, but not including, the home, then the global home |
| `ConfigResolve.CandidatesAre` | src/config.ts:257-288 | For every environment: the candidates are the global home and, if the code counts the working directory as under the home, the `.climon` of each directory below the home down to it, otherwise that of the working directory alone |
| `ConfigResolve.WalkIsCompleteExactlyIf` | src/config.ts:257-288 | From the home or below it, no directory on the way down is missed exactly if the first one below the home does not start with two dots, or is itself the working directory, or is the directory just above it and holds the global home |
| `ConfigResolve.DotsDirectoryIsMissed` | src/config.ts:257-288 | A concrete working directory, two levels below the home under `..x`, for which the configuration of `..x` is not a candidate |
| `ConfigResolve.ResolveConfigSetting` | src/config.ts:338-351 | The first candidate directory that defines the key wins; a global-only key is read from the global home alone |
| `ConfigResolve.NearestIsRead` | src/config.ts:338-351 | Below the home a key resolves to the definition in the nearest directory on the way up that has one, and to the global home's only if none has |
| `ConfigResolve.ReadElsewhere` | src/config.ts:338-351 | Elsewhere it resolves to the working directory's own definition, else the global home's; a global-only key to the global home's alone |
| `ConfigResolve.ResolveDependsOn` | src/config.ts:338-365 | A global-only key depends on the global home's files alone, any other key only on the files of the candidate directories |
| `ConfigResolve.ResolveWriteDir` | src/config.ts:428-451 | Where a write goes in each scope |
| `ConfigResolve.NearestIsWritten` | src/config.ts:428-451 | Below the home a write without a scope goes to the nearest directory on the way up that holds a configuration file, else to the global home |
| `ConfigResolve.WrittenElsewhere` | src/config.ts:428-451 | Where every other write goes, by scope, key and working directory |
| `ConfigResolve.ConfigDirs.WriteConfigSetting` | src/config.ts:511-528 | A write rewrites the target directory's file with the one field set and touches no other directory; a value that does not coerce changes nothing |
| `ConfigResolve.ResolveAfterWrite` | src/config.ts:338-351 | The effect of any write in any scope on how any key resolves from any directory, exactly: the written key changes where the read gets as far as the written directory, every other key is as before |
| `ConfigResolve.ReadYourWrites` | src/config.ts:511-528 | After an auto-scope write the key resolves to the written value from the same directory, unless its section in the target file is an array, and then the write is lost |
| `ConfigResolve.ArraySectionLosesWrite` | src/config.ts:511-528 | A concrete home file, for any key, that holds an array where the section should be: the write changes nothing that is read |
| `ConfigResolve.LocalWriteOfGlobalKey` | src/config.ts:454-456 | A local write of a global-only key is seen by no reader whose global home is another directory |
| `ConfigResolve.LocalWriteIsRead` | src/config.ts:433 | A local write of any other key is read back from the same directory exactly if that is not the home directory or its `.climon` is the global home |
| `ConfigResolve.GlobalWriteIsRead` | src/config.ts:428-451 | A global write of a global-only key is read exactly by readers with the same global home; one of another key by those for which no nearer directory defines it, and not where one does |
| `Frames.EncodeFrame` | src/ipc/frame.ts:60-67 | The frame written into a fresh buffer is the big-endian length, the tag and the payload; a length of 2^32 or more is an error |
| `Frames.WireFormat` | src/ipc/frame.ts:60-67 | The bytes of a frame: four bytes of length, most significant first, the tag, the payload |
| `Frames.FrameDecoder.Push` | src/ipc/frame.ts:82-101 | A push returns the complete frames at the front of buffer and chunk and keeps the rest |
| `Frames.SplitIsLossless` | src/ipc/frame.ts:85-99 | The frames and the remainder are the stream |
| `Frames.SplitOfEncoded` | src/ipc/frame.ts:60-101 | Encoded frames followed by an incomplete one decode to exactly these frames |
| `Frames.ChunksDoNotMatter` | src/ipc/frame.ts:82-101 | Frames and buffer do not depend on how the stream was cut into chunks |
| `Frames.DecodesWhatWasEncoded` | src/ipc/frame.ts:60-101 | Any cutting of any concatenation of encoded frames decodes to exactly these frames with an empty buffer |
| `Mux.EncodeControl` | src/remote/mux.ts:61-63 | A control message is framed under tag 1 |
| `Mux.EncodeData` | src/remote/mux.ts:65-75 | A data message is framed with its counted session id; an id over 255 bytes is an error |
| `Mux.MessageFormat` | src/remote/mux.ts:53-75 | The bytes of a message: tag 1 and the JSON, or tag 2, the length of the session id, the id, the data |
| `Mux.MuxDecoder.Push` | src/remote/mux.ts:82-111 | A push returns the messages decoded from buffer and chunk, or the first error, in which case the buffer keeps the bad frame and the messages decoded before it are not returned |
| `Mux.FailsExactlyAtBadFrame` | src/remote/mux.ts:89-108 | Decoding fails exactly where good frames lead to an oversize header, an empty data frame, or a control frame that is not JSON |
| `Mux.ShortestFailures` | src/remote/mux.ts:20-51 | The five bytes of an empty data frame and of an empty control frame, each with its error |
| `Mux.RetainsLessThanAFrame` | src/remote/mux.ts:86-110 | After a push without error the buffer holds fewer than 5 + 8 MiB bytes |
| `Mux.FailureStays` | src/remote/mux.ts:86-110 | More bytes never undo a failure |
| `Mux.ChunksDoNotMatter` | src/remote/mux.ts:82-111 | Cutting the stream changes neither messages nor buffer, and some chunk fails exactly when the whole stream does; messages returned before a failure are a prefix of those decoded |
| `Mux.DecodeOfWire` | src/remote/mux.ts:53-111 | Whatever messages the encoders wrote: all are decoded exactly if none is over 8 MiB; otherwise those in front of the first that is, where the decoder fails as too large |
| `Mux.DecodesExactlyWhatFits` | src/remote/mux.ts:53-111 | Any cutting of what the encoders wrote decodes to exactly these messages if and only if none is over the limit; otherwise the decoder fails as too large and has returned at most the messages in front of the first long one |
| `SpawnAuth.ReplayGuard.Check` | src/remote/spawn-auth.ts:79-85 | Stale, replay or ok, and the entries kept |
| `SpawnAuth.ReplayGuard.Prune` | src/remote/spawn-auth.ts:87-91 | The loop removes exactly the entries older than the window |
| `SpawnAuth.PruningIsInvisible` | src/remote/spawn-auth.ts:74-92 | With a clock that never goes back and one time for each nonce, the pruning guard answers every call of every run as one that never forgets |
| `SpawnAuth.AcceptedAtMostOnce` | src/remote/spawn-auth.ts:74-92 | In such runs no nonce is accepted twice |
| `SpawnAuth.VerdictsAre` | src/remote/spawn-auth.ts:79-85 | In such runs each call is stale exactly if it is out of time on either side, a replay exactly if an earlier call in time had its nonce, and accepted otherwise |
| `SpawnAuth.RetainedIsRecent` | src/remote/spawn-auth.ts:79-91 | Everything retained is within the window of the last check that was not stale |
| `SpawnAuth.AssumptionsAreNeeded` | src/remote/spawn-auth.ts:79-91 | Without either assumption a nonce is accepted twice |
| `SpawnAuth.VerifySignedControl` | src/remote/spawn-auth.ts:98-117 | The verdicts in the order kind, signature, freshness, replay, payload, and their effect on the guard |
| `SpawnAuth.VerifiedExactlyIf` | src/remote/spawn-auth.ts:98-117 | A message is verified exactly if kind, signature, time on either side, nonce and payload are all right |
| `SpawnAuth.SigningInputDetermines` | src/remote/spawn-auth.ts:35-37 | What is signed determines payload, nonce and time, as long as nonces and printed times hold no line feed |
| `SpawnAuth.SignThenVerify` | src/remote/spawn-auth.ts:51-117 | A signed message verifies to itself in time and for the first time; a second delivery is rejected as stale or replayed |
| `SpawnAuth.ForgeryLeavesGuard` | src/remote/spawn-auth.ts:104-106 | What does not carry the right signature is rejected and never touches the guard |
| `Election.DecisionNamesWinner` | src/server/tie-break.ts:42-48 | Each side decides for itself exactly if it is the later starter, or WSL on a tie or unknown time |
| `Election.SettleDualPromote` | src/server/server.ts:1119-1164 | The polling loop decides on the first state file it sees: the peer is asked if its start is earlier, this host if it is later, and on a tie or without a time the one that is not WSL; nobody if it sees no file |
| `Election.RunKeepsInv` | src/server/server.ts:2146-2151 | The invariant of the two hosts over every interleaving of publishing, polling, asking and stopping |
| `Election.OneHostStays` | src/server/server.ts:1119-1164 | In every interleaving, from homes that are empty or hold harmless left-over files, the two never both find no peer, all that decide agree, requests land in the loser's home only, and the winner never stops |
| `Election.SettledMeansAsked` | src/server/server.ts:1119-1164 | When both have finished, the loser has been asked to stop |
| `Election.WinnerIsSafeExactlyWithHarmlessFiles` | src/server/server.ts:1119-1164 | For all start times and left-over state files: no run puts a shutdown request into the winner's home exactly if each left-over file makes its reader decide as the real peer's file does |
| `Election.HarmfulFiles` | src/server/tie-break.ts:42-48 | With two different start times, which left-over files are harmless: for the later starter one that is older than it, for the earlier starter one that is newer than it, and one without a time or with the reader's own time where the tie rule, which names WSL, names the real winner |
| `Election.OldFileStopsBoth` | src/server/server.ts:1119-1164 | A concrete run: the file of an earlier Windows server makes WSL win and ask Windows, and then Windows wins and asks WSL |
| `Argv.BuildRunArgs` | src/server/server.ts:651-667 | The `run --headless` command line of a command and its flags |
| `Argv.BuildSpawnArgs` | src/server/server.ts:681-700 | The `__spawn` command line of a command, its place and its flags |
| `Argv.PrintedPriority` | rust/climon-cli/src/args.rs:193-216 | A printed integer priority parses back exactly if it is between 0 and 1000, and is an error otherwise |
| `Argv.PrintedSize` | rust/climon-cli/src/args.rs:413-445 | A printed integer size parses as u16 exactly if it fits |
| `Argv.PrintedColor` | rust/climon-cli/src/args.rs:220-234 | Every color, `auto` and `none` parse back from their wire names |
| `Argv.ParseSessionFlags` | rust/climon-cli/src/args.rs:247-296 | The index loop consumes leading flags in both forms and returns the tokens from the first other one on |
| `Argv.ParseSpawnTokens` | rust/climon-cli/src/args.rs:413-462 | The iterator loop of the `__spawn` arm: options while nothing else was seen, then session flags, then a non-empty command |
| `Argv.ParseRunTokens` | rust/climon-cli/src/args.rs:388-405 | The loop of the `run` arm: leading `--headless`, then session flags, then a non-empty command |
| `ArgvRoundTrip.TypedFlags` | rust/climon-cli/src/args.rs:247-296 | Any session flags as a user types them, in both forms and any number of times: the last value of each counts, the first bad value is the error, and the rest is left |
| `ArgvRoundTrip.ColorIsRead` | rust/climon-cli/src/args.rs:220-234 | A color flag is read from exactly ten words, in any case, with white space around them |
| `ArgvRoundTrip.PriorityIsRead` | rust/climon-cli/src/args.rs:193-216 | Decimal digits with white space around them are a priority exactly if they are at most 1000; white space alone is 0 |
| `ArgvRoundTrip.RunRoundTrip` | rust/climon-cli/src/args.rs:388-405 | The client reads back the server's `run --headless` line exactly if the priority is in range, the command is not empty, and its first token is not taken for a flag |
| `ArgvRoundTrip.SpawnRoundTrip` | rust/climon-cli/src/args.rs:413-462 | The client reads back the server's `__spawn` line exactly if also the sizes are u16 and, without flags, the command does not start with an option of `__spawn`; everything else may hold anything |
| `ArgvRoundTrip.BuildRunArgsOfClient` | rust/climon-cli/src/args.rs:513-543 | The client's own builder prints what the server's prints for a session without a theme |
| `CsvLookup.CsvInverse` | src/i18n/publish.ts:36-70 | A parser for section 2 of RFC 4180 that also takes a bare LF as line end recovers exactly the six header names and, for each entry in key order, its six fields, whatever they hold |
| `CsvLookup.QuotedExactlyIf` | src/i18n/publish.ts:54-58 | A field stands in quotes exactly if it holds a quote, a comma or a line break |
| `CsvLookup.RecordsDetermineRows` | src/i18n/publish.ts:62-70 | The parsed records determine the lookup rows |
| `CsvLookup.ColumnGivesNames` | src/i18n/publish.ts:42-50 | A joined column splits back into its placeholder names |
| `CsvLookup.RedactedNames` | src/i18n/publish.ts:43 | The last column names exactly the placeholders marked for redaction |
| `CsvLookup.RowsAreSorted` | src/i18n/publish.ts:36-52 | One row for each catalog entry, by increasing key in code units |
| `CsvLookup.CsvIsStable` | src/i18n/publish.ts:32-52 | The text does not depend on the order in which the catalog holds its entries |
| `Telemetry.PickAllowed` | src/logging/appinsights-transform.ts:40-49 | The copy with only the allowed fields |
| `Telemetry.RedactParams` | src/logging/appinsights-transform.ts:57-73 | The copy with each redacted parameter scrubbed |
| `Telemetry.CompactRecord` | src/logging/appinsights-transform.ts:76-100 | The compacted record, with the sentinel id where there is no catalog entry |
| `Telemetry.NonInterference` | src/logging/appinsights-transform.ts:57-100 | Records that agree on the base fields and the entry's unredacted and diagnostic parameters, and on the presence of the other redacted ones, compact to the same record |
| `Telemetry.RedactedValueLeavesExactlyIf` | src/logging/appinsights-transform.ts:57-73 | The value of a redacted parameter leaves the machine as it is, whatever the sanitizer does, exactly if it is marked as a diagnostic and is not a string |
| `Telemetry.SendsDiagnosticNumber` | src/logging/appinsights-transform.ts:76-100 | A concrete record whose diagnostic number is sent as it is |
| `Telemetry.CataloguedIs` | src/logging/appinsights-transform.ts:57-100 | What is sent of a record with a catalog entry, field by field and exactly: which names, and for each the record's value, the marker of the category, or the sanitized text |
| `Telemetry.UncataloguedIs` | src/logging/appinsights-transform.ts:76-93 | What is sent of any other record, field by field and exactly: the sentinel twice and the other base fields |
| `Telemetry.OnlyAllowedFields` | src/logging/appinsights-transform.ts:76-100 | Every field of a compacted record is the id, a base field, or a scrubbed parameter of the entry |
| `Telemetry.Transform.Chunk` | src/logging/appinsights-transform.ts:112-128 | A chunk of bytes, decoded on its own, sends one record for each complete non-blank line and keeps the unfinished one |
| `Telemetry.Transform.Flush` | src/logging/appinsights-transform.ts:129-140 | The flush sends the last line if it is not blank |
| `Telemetry.SentIs` | src/logging/appinsights-transform.ts:112-140 | What one line sends: nothing if it is white space, the compacted record of an object, the sentinel for anything else |
| `Lines.IndexOfLfIsFirst` | src/logging/appinsights-transform.ts:115-117 | A line ends at the first line feed |
| `Lines.ChunksDoNotMatter` | src/logging/appinsights-transform.ts:106-142 | What is sent depends on the characters alone, not on the chunks they arrive in |
| `Telemetry.OnlyCharactersMatter` | src/logging/appinsights-transform.ts:106-142 | Two streams with the same characters, or differing by a final newline, send the same records |
| `Utf8.DecodeEncoded` | src/logging/appinsights-transform.ts:113 | The decoder recovers every text from its UTF-8 bytes |
| `Utf8.WellFormedExactlyIf` | src/logging/appinsights-transform.ts:113 | The bytes that are whole characters for the decoder are exactly the UTF-8 encodings of texts |
| `Utf8.MaximalSubpart` | src/logging/appinsights-transform.ts:113 | What starts no character becomes one U+FFFD, up to where no character begins like it any more |
| `Utf8.UnitsAre` | src/logging/appinsights-transform.ts:113 | A character is one UTF-16 unit, or a surrogate pair that carries its bits |
| `Utf8.DecodesInPiecesExactlyIf` | src/logging/appinsights-transform.ts:113 | Chunks of well-formed bytes decode, each on its own, to the text of the whole exactly if no cut falls inside a character |
| `Telemetry.CutsBetweenCharactersDoNotMatter` | src/logging/appinsights-transform.ts:106-142 | As long as no chunk ends inside a character, what is sent depends on the bytes alone |
| `Telemetry.CutInsideCharacterShows` | src/logging/appinsights-transform.ts:106-142 | The two bytes of a no-break space send nothing together and a record when they arrive one by one |
| `AttachInput.InputProcessor.ProcessChunk` | rust/climon-cli/src/client.rs:121-161 | One chunk with the gate's answer: forwarded bytes, action, and whether a prefix is pending |
| `AttachInput.Attach` | rust/climon-cli/src/client.rs:521-562 | The input loop over all reads, each with its own answer of the gate: it goes on after a request for control and stops at a detach |
| `AttachInput.ChunksDoNotMatter` | rust/climon-cli/src/client.rs:121-161 | As long as no control is asked for, the loop does what the whole stream of keys says, wherever it was cut and whenever control came and went |
| `AttachInput.RequestDropsItsRead` | rust/climon-cli/src/client.rs:121-161 | A request for control drops the rest of its read: a chord read together with it is lost, one read after it detaches |
| `AttachInput.SessionIsTrimmedStream` | rust/climon-cli/src/client.rs:521-562 | Over any reads with any number of requests the session is that of the keys one after the other, without those that came after a request in the same read |
| `AttachInput.MayBeDroppedExactlyIf` | rust/climon-cli/src/client.rs:121-161 | The keys after a request in its read are missed in some continuation exactly if they hold a chord, another request, or a prefix left pending at their end |
| `AttachInput.CutDoesNotMatter` | rust/climon-cli/src/client.rs:521-562 | If no request drops such keys, the whole session is that of its keys wherever the reads cut them |
| `AttachInput.ProcessMeans` | rust/climon-cli/src/client.rs:121-161 | What any stream of keys does, with control changing anywhere and a prefix pending or not: up to its first stop the forwarded positions are sent in order, a prefix sharing the fate of the key it pairs with |
| `AttachInput.ActsExactlyAtFirstStop` | rust/climon-cli/src/client.rs:121-161 | The stream detaches exactly if its first stop is the `d` of a greedily paired chord, and asks for control exactly if it is a Space outside a pair while displaced |
| `AttachInput.ControlDecidesExactlyIf` | rust/climon-cli/src/client.rs:121-161 | A key typed while displaced is forwarded exactly if it is a prefix that starts a pair whose second key is read with control and is not `d`; a key typed with control is lost exactly in the reverse case, a chord or pending prefix aside |
| `AttachInput.PairAcrossChangeOfControl` | rust/climon-cli/src/client.rs:121-161 | Both cases as concrete reads |
| `AttachInput.ConservedExactlyIf` | rust/climon-cli/src/client.rs:121-161 | What is forwarded and what is withheld (pending prefix, or the chord and what follows it) are the input, in order, exactly if control is not asked for and nothing but opening prefixes was read while displaced |
| `AttachInput.DisplacedForwardsNothing` | rust/climon-cli/src/client.rs:121-161 | Keys all read while displaced forward nothing, even after a pending prefix |
| `AttachOutput.Terminal.ConsumeFrame` | rust/climon-cli/src/client.rs:188-233 | One frame from the daemon: what is written, the gate, the exit code, and whether a replay is requested |
| `AttachOutput.ShowsOnlyWhileControlling` | rust/climon-cli/src/client.rs:62-106 | Over any run the client is displaced exactly when the last controller named is another one; everything on the terminal, in order, is the PTY bytes that arrived while it controlled, a notice for each frame that names another, and a clearing when control comes back; a replay is requested exactly then; and the exit code is that of the last readable exit frame |
| `AutoColor.ChooseAutoSessionColor` | rust/climon-cli/src/launcher.rs:177-194 | From any store the choice is the first color in the preference order that no other is used less than |
| `AutoColor.NthColor` | rust/climon-cli/src/launcher.rs:177-194 | With auto-colored sessions only, the n-th gets color n mod 8 of white, cyan, magenta, blue, yellow, green, red, black |
| `AutoColor.UsesStayFair` | rust/climon-cli/src/launcher.rs:177-194 | Then no color is ever used more than once more than another |

## Left out

- Real files, sockets, processes, terminals, environment variables and clocks; each save or settings write is one
  step, so the gap inside `saveConfig` between reading and writing across processes is not modelled.
- Crashes inside the lock's recovery section and staleness by age of owners in another pid scope: mutual exclusion
  is not guaranteed there.
- The reclaim claim's file snapshot is one step here, a stat and a read in the code; `ClaimsNeverContend` shows that
  the branches it belongs to are never reached.
- Direct `writeSessionMeta` and `removeSessionMeta` calls, which bypass the lock.
- JavaScript's number printing: a number is the token it prints as. JavaScript's prototype chain: keys such as
  `__proto__`, and array properties, are ordinary keys or absent.
- Key order of configuration objects in memory: trees forget it, so a save writes some order; the printer itself is
  modelled with order.
- Symbolic links between `.climon` directories, relative `CLIMON_HOME` values and Windows drives in
  `candidateConfigDirs`.
- `unsetConfigSetting`, the debug listings and the coercion of setting values.
- UTF-8 coding of session ids: they are their bytes.
- Priorities, sizes and timestamps that are no integers.
- Constant-time comparison, HMAC and nonce generation.
- The promote handoff over TCP and HTTP, and what an ingest daemon does with a shutdown request beyond stopping the
  server and removing its state file.
- The arms of `parse_args` other than `run` and `__spawn`, and help texts.
- The JSON lookup, template rendering and catalog validation.
- Overflow of the 32-bit color counters, which would need four billion sessions.
- The tunnel manager, ingest networking, the web client, installers and updates.
