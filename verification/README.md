# Verification of the switchmaxxer core

This project models the hard core of switchmaxxer, an LLM gateway with a command line, in Dafny and
proves properties of it. One module stands for one component:

| module | what it models |
|---|---|
| `ConfigLock` | the config mutation lock: any number of `withConfigMutationLock` attempts, interleaved at every file-system call, with failing calls and dying processes |
| `ConfigReplace` | atomic replacement of the config file with backup, with throws and crashes between any two calls |
| `ConcurrentReplace` | the same with any number of writers at a time, for when the lock is lost |
| `BackupPromises`, `BackupStarts` | which moves, and which starts, cost overlapping writers a fresh and private backup |
| `LockedReplace` | the lock and the replacement together: attempts inside `fn` that write |
| `ObjectKeyPolicy` | the deep check for reserved object keys over cyclic object graphs |
| `JsonSyntax`, `JsonRoundTrip`, `JsonGrammar` | RFC 8259 as syntax trees with every choice of white space and spelling, and the proof that the parser reads exactly their texts |
| `JsValues`, `JsonText`, `JsonScanner`, `BoundedWalk`, `JsonBounds` | JSON within bounds: printer, parser, nesting scanner, explicit-stack walk |
| `ErrorDetailSanitizer` | the depth-bounded sanitizer and the normalization of key names |
| `WorkerPool`, `BenchPlan` | the worker pool under rejection and abort, and the benchmark plan it runs |
| `NumberText`, `RouteArgs` | canonical integers, the flag loop and the route flag tables |
| `ImportDiff` | redaction of inline keys and the diff that a config import shows |
| `ConfigCatalog` | loading providers, models and routes, resolving keys, and the read model |
| `Utf8`, `LogLines` | reassembly of journal output into lines, from text chunks and from byte chunks |
| `GatewayTimers` | the retention timer under reloads, fatal errors and shutdowns |

`dafny verify dfyconfig.toml` checks everything.

## How the code is modelled

Code that changes files or shared state step by step and can be interrupted is a transition system:
`Enabled` says when a step can happen, `Apply` what it does, and a run is a sequence of states linked by
steps. `ConfigLock.Apply` follows lines 207-365 of `src/subsystems/config/config-file.ts` call by call,
`ConfigReplace.Apply` lines 120-205, `WorkerPool.Apply` lines 36-66 of `src/platform/concurrency.ts`.
`ConcurrentReplace.Moved` lets any number of writers of `ConfigReplace` take their steps in one directory, and
`LockedReplace.Happened` lets attempts of `ConfigLock` run such writers inside `fn`. Exclusive
create and rename are atomic steps, a successful `writeSync` writes everything, and temp names are fresh.
A file at the lock path remembers which attempt created it, because an attempt writes through its own
descriptor while `unlinkSync` works on the path. `kill(pid, 0)` must report a running attempt as live and is free for every other
pid. The clock is free. Loops become methods with invariants, objects that handlers update become classes,
and the pure parts become functions with lemmas about them.

Strings are sequences of Unicode scalar values. A JSON number is represented by its token. Numbers that the
source compares or counts are integers, with the safe-integer bound as a range check. A file is private
when its mode is 0600, and readable otherwise. The `stat` and the read with which the backup's mode is resolved
and the read of its bytes are three steps.

## Findings

- Two live attempts on one host can be inside `fn` together, in two ways. The `finally` block of
  `withConfigMutationLock` deletes the lock path also when the attempt was refused
  (`ConfigLock.RefusedCleanupWitness`). And an attempt that judged a lock file stale later removes whatever
  file is at the lock path by then, so that two attempts that recover the same stale lock can both enter,
  with no cleanup, crash or failing call involved (`ConfigLock.StaleRecoveryRaceWitness`).
- Lock safety holds exactly up to such a deletion: `ConfigLock.MutualExclusionUnlessTheft` shows that
  exclusion is lost only after a refused attempt's cleanup or a removal after a stale verdict has deleted the
  lock file of an attempt with an open descriptor on it, and `ConfigLock.TheftBreaksExclusion` that from every
  state in which such an attempt is robbed, by any step and at any point between its create and its own
  cleanup, two attempts can come to be inside together. After a first deletion even the cleanup of an attempt
  that did get the lock can delete a later attempt's file (`ConfigLock.RobbedHolderRobsWitness`). The test at
  `src/subsystems/config/config-mutation-runtime.test.ts:540-561` shows the refusal of a second attempt; it
  does not look at the lock file between the refusal and the end of the first attempt.
- `resolveConfigBackupMode` falls back to the mode of the source when it cannot read or parse it (the `catch`
  at lines 85-87 of `src/subsystems/config/config-file.ts`). One undisturbed write then puts a key from the
  source in a backup file of that mode: if the source is outside the JSON bounds
  (`BackupStarts.UnguardedWriteLeaks`), or if that one read throws (`BackupStarts.BlindWriteLeaks`). Writers
  that exclude each other keep all keys private exactly when a key in the first source is private itself, or
  no document is accepted; where no such read throws, a key that can be parsed is enough
  (`BackupStarts.ExclusivePrivacyExactly`).
- When the lock is lost and writers overlap, the source still holds one complete, validated version with
  private keys (`ConcurrentReplace.ConcurrentSafety`), but two promises about the backup can go. The mode and
  the bytes of the backup are read one after the other (lines 172-174 of
  `src/subsystems/config/config-file.ts`), so a key can end up in a backup file whose own mode is readable:
  exactly when a writer that has resolved a readable mode reads a source with a key
  (`BackupPromises.BackupsPrivateExactly`). And a slow writer can leave a backup that is older than the previous
  version: exactly when another writer's final rename outdates the copy it holds, or the backup it stands behind
  (`BackupPromises.BackupFreshExactly`). As conditions on the start: keys stay private in every interleaving
  exactly when the source is absent or private, no document is accepted, or neither the source nor an accepted
  document has a key (`BackupStarts.BackupsPrivateFromStart`); the backup stays fresh exactly when no two
  different versions can follow each other (`BackupStarts.BackupFreshFromStart`).
- The backup directory is created with mode 0700 (lines 116-118 of
  `src/subsystems/config/config-file.ts`), so a backup file with a readable mode is open
  to others only where that directory was there before with a wider mode. The model speaks of the file's mode.
- The nesting scanner clamps its depth at zero, so that stray closing brackets make no room for others
  (`JsonScanner.ScannerRejectsExactly`). It rejects a text that the walk would accept only if the text repeats a key
  (`JsonBounds.ScannerNeverOverrejects`, `JsonBounds.RepeatedKeyOverrejected`).
- Journal output is decoded chunk by chunk, so a multi-byte character that a chunk boundary cuts is replaced
  (`LogLines.CutCharacterWitness`). The text arrives unchanged exactly when no chunk starts inside a character
  (`LogLines.TextSurvivesExactlyBetweenCharacters`), and with filters that let every line with a non-ASCII
  character through, the same holds of the collected entries (`LogLines.EntriesSurviveExactlyBetweenCharacters`).
- Cost flags have no `--flag=value` spelling (`RouteArgs.CostFlagsAreNotJoined`).

## Model

| member | source | states |
|---|---|---|
| `ConfigLock.MutualExclusionUnlessTheft` | src/subsystems/config/config-file.ts:299-365 | in every interleaving with failures and crashes, two attempts are inside `fn` together only if another attempt deleted the lock file of one of them while it was in use, and only after a deletion by a refused attempt or after a stale verdict |
| `ConfigLock.RunKeepsHoldersOwn` | src/subsystems/config/config-file.ts:299-365 | in a run without such a deletion, every attempt with an open lock descriptor owns the file at the lock path, so at most one has it |
| `ConfigLock.ActiveOwnsOrWasRobbed` | src/subsystems/config/config-file.ts:339-349 | between its exclusive create and the end of `fn` an attempt owns the lock file unless some other attempt deleted it |
| `ConfigLock.RefusedAttemptRemovesLock` | src/subsystems/config/config-file.ts:308-364 | an attempt that meets the lock of a live process of its own host is refused, and its cleanup then deletes that lock |
| `ConfigLock.NewcomerEntersFreeLock` | src/subsystems/config/config-file.ts:303-349 | whoever finds no lock file is inside `fn` three steps later, beside everybody who is inside already |
| `ConfigLock.RefusedCleanupWitness` | src/subsystems/config/config-file.ts:350-364 | a run of three live attempts, with no failing call and no crash, that ends with two of them inside `fn` |
| `ConfigLock.TheftBreaksExclusion` | src/subsystems/config/config-file.ts:299-365 | whenever a step deletes the lock file of another attempt that has it open, be it before, inside or after `fn`, the run can go on through that step so that two attempts are inside together |
| `ConfigLock.StaleRecoveryRaceWitness` | src/subsystems/config/config-file.ts:308-349 | a run of two attempts without cleanup, crash or failing call in which the second removes the first one's new lock on its verdict about the old one, and both are inside `fn` |
| `ConfigLock.RobbedHolderRobsWitness` | src/subsystems/config/config-file.ts:350-364 | a run in which the cleanup of an attempt that had the lock deletes the lock of another attempt inside `fn` |
| `ConfigLock.RunKeepsJudgeInv` | src/subsystems/config/config-file.ts:207-279 | at every point of every run, a stale verdict reached on a complete lock file of the same host is about an attempt that no longer runs |
| `ConfigLock.StaleTheftCause` | src/subsystems/config/config-file.ts:269-320 | a removal after a stale verdict hits a running attempt of the same host only if the check read another file, nothing, or the file before its metadata was written |
| `ConfigLock.StaleExactlyAfterThirtySeconds` | src/subsystems/config/config-file.ts:269-279 | at every point of every run, the age check on a completed lock file finds it stale exactly when more than 30 s have passed since its author wrote it, whatever its mtime |
| `ConfigLock.LiveCreatorRefuses` | src/subsystems/config/config-file.ts:269-275 | in every run, whoever has read the completed file of a running attempt of the same host is refused at the pid check, at any age |
| `ConfigLock.UnreadableJudgedByMtime` | src/subsystems/config/config-file.ts:207-279 | in every run, after a read that failed the age is that of the file at the lock path by its mtime, and where that cannot be had the attempt is refused |
| `ConfigLock.FatalIsFinal` | src/subsystems/config/config-file.ts:303-364 | after a call that throws, a refusal or a lost retry an attempt never comes to `fn`: all that is left is its cleanup |
| `ConfigLock.FinishedByCleanup` | src/subsystems/config/config-file.ts:350-364 | no attempt returns or throws without having made its cleanup |
| `ConfigLock.HoldsExactlyAfterCreate` | src/subsystems/config/config-file.ts:299-365 | an attempt has an open lock descriptor exactly from its exclusive create to its end |
| `ConfigLock.SoloRun` | src/subsystems/config/config-file.ts:299-365 | an undisturbed attempt has a run to its end that leaves no lock file, through `fn` exactly when there was no lock or a stale one |
| `ConfigLock.EverySoloRun` | src/subsystems/config/config-file.ts:299-365 | every finished run of one attempt alone in which no call fails passed through `fn` exactly when it found no lock or a stale one, and left no lock file |
| `ConfigLock.LockPath.WithConfigMutationLock` | src/subsystems/config/config-file.ts:269-365 | one undisturbed call is refused exactly when the lock names a live process of this host, at any age, or is at most 30 s old; otherwise it enters `fn`; no lock file is left, and the call is a run of the transition system |
| `ConfigReplace.ReplacementSafety` | src/subsystems/config/config-file.ts:120-205 | at every step of every run with throws and crashes anywhere: the source holds one complete version, initial or accepted by the validator; a backup equals the current or previous version; a document with an inline key has mode 0600, and so has a backup with one if the first source with a key had mode 0600, or could be parsed and no read that looks for the key threw; a temp file outlives its write only if the process died in that write or the unlink of that very file threw |
| `ConfigReplace.FailedWritesKeepSource` | src/subsystems/config/config-file.ts:134-166 | between two points with no final rename in between, the source file is exactly the same, whatever began, failed or died |
| `ConfigReplace.UnfinishedWriteKeepsSource` | src/subsystems/config/config-file.ts:134-166 | a write that is under way or has failed, whether or not its clean-up worked, has left the source file exactly what it was when the write began |
| `ConfigReplace.FailedWriteLeavesNoTemp` | src/subsystems/config/config-file.ts:150-166 | a finished write has left a temp file only if an earlier step was a crash during that write or a throwing unlink of that very file |
| `ConfigReplace.AbandonedExactly` | src/subsystems/config/config-file.ts:150-166 | told from the actions of the run alone: the abandoned temp files are exactly those of writes that crashed and those whose unlink threw |
| `ConfigReplace.SuccessfulWriteBacksUp` | src/subsystems/config/config-file.ts:146-149 | the final rename puts the new document in place and the backup then holds the version it replaced |
| `ConfigReplace.NeverStuck` | src/subsystems/config/config-file.ts:134-149 | in every reachable state the next call of the write under way finds the files it works on |
| `ConfigReplace.ConfigDirectory.WriteBackupSnapshot` | src/subsystems/config/config-file.ts:169-205 | the backup is a copy of the source with the resolved mode, or the source's mode if the read that looks for a key threw; or nothing has changed but for a temp file whose unlink threw |
| `ConfigReplace.ConfigDirectory.StageTemp` | src/subsystems/config/config-file.ts:134-143 | the temp file holds the whole document with the target mode, and no other file has changed |
| `ConfigReplace.ConfigDirectory.WriteAtomically` | src/subsystems/config/config-file.ts:120-167 | all or nothing: the accepted document at the source with the replaced version as backup, or the old source; a temp file is left only if its unlink threw |
| `ConcurrentReplace.ConcurrentSafety` | src/subsystems/config/config-file.ts:120-205 | in every interleaving of any number of writers, with throws and deaths anywhere: the source holds one complete version, initial or accepted; a backup is some version the source has held; keys in the source and in temp documents are private; a temp file is left over only by a writer that died or by an unlink of that very file that threw |
| `ConcurrentReplace.AbandonedInExactly` | src/subsystems/config/config-file.ts:150-166 | the same account of abandoned temp files from the moves of every interleaving |
| `BackupPromises.PrivateWithoutMixedRead` | src/subsystems/config/config-file.ts:169-205 | every interleaving in which no writer reads a source with a key after resolving a readable mode keeps every key private |
| `BackupPromises.MixedReadLeaks` | src/subsystems/config/config-file.ts:172-189 | from every state of every run, after such a read the run can go on to a backup file with the key and that mode |
| `BackupPromises.BackupsPrivateExactly` | src/subsystems/config/config-file.ts:169-205 | backups are private at every point of every interleaving exactly when no interleaving comes to such a read |
| `BackupPromises.FreshWithoutOvertaking` | src/subsystems/config/config-file.ts:120-205 | every interleaving in which no final rename outdates another writer's copy, or the backup it stands behind, keeps the backup at the current or previous version |
| `BackupPromises.OvertakingGoesStale` | src/subsystems/config/config-file.ts:145-205 | from every state of every run, after such a rename the run can go on to a backup that is neither the current nor the previous version |
| `BackupPromises.BackupFreshExactly` | src/subsystems/config/config-file.ts:120-205 | the backup is fresh at every point of every interleaving exactly when no interleaving comes to such a rename |
| `BackupPromises.ExclusiveWritersKeepBackup` | src/subsystems/config/config-file.ts:120-205 | runs in which at most one writer is at work at a time keep the backup fresh, and every key private if a first source with a key has mode 0600, or can be parsed and no read that looks for the key throws |
| `BackupStarts.UnguardedWriteLeaks` | src/subsystems/config/config-file.ts:75-90 | from every clean start whose source has a key, cannot be parsed and has a readable mode, one undisturbed write in which nothing throws puts the key in a backup file of that mode |
| `BackupStarts.BlindWriteLeaks` | src/subsystems/config/config-file.ts:75-90 | from every clean start whose source has a key and a readable mode, one undisturbed write in which the read that looks for the key throws puts the key in a backup file of that mode |
| `BackupStarts.ExclusivePrivacyExactly` | src/subsystems/config/config-file.ts:75-90 | writers that exclude each other keep all keys private exactly when a key in the first source is private or no document is accepted; without such a throw, exactly when that key is private or can be parsed, or no document is accepted |
| `BackupStarts.LateBackupWitness` | src/subsystems/config/config-file.ts:145-205 | from every state with a source, a writer overtaken by two others can put a backup in place that is neither the current nor the previous version |
| `BackupStarts.ReadableKeyWitness` | src/subsystems/config/config-file.ts:172-189 | from every state with a readable source without key, a writer overtaken between its two reads can put a key in a backup file of the source's mode |
| `BackupStarts.BackupsPrivateFromStart` | src/subsystems/config/config-file.ts:63-91 | overlapping writers keep backups private in every interleaving exactly when the first source is absent or has mode 0600, or no document is accepted, or neither the source nor an accepted document has a key |
| `BackupStarts.BackupFreshFromStart` | src/subsystems/config/config-file.ts:120-205 | overlapping writers keep the backup fresh in every interleaving exactly when no two different versions can follow each other |
| `LockedReplace.RunIsExclusive` | src/subsystems/config/config-file.ts:120-365 | in every run of attempts that write inside `fn`, up to the first theft of a lock file, the writers' steps are a run in which they exclude each other |
| `LockedReplace.LockedWritesKeepPromises` | src/subsystems/config/config-file.ts:120-365 | at every point of such a run one writer works at a time, the source is complete, the backup fresh, and every key private if a first source with a key has mode 0600, or can be parsed and no read that looks for the key throws |
| `ObjectKeyPolicy.AssertNoReservedObjectKeysDeep` | src/platform/object-key-policy.ts:13-44 | on every finite graph it ends, passes exactly when no reachable object has a reserved key, and otherwise reports a real path to a reserved key |
| `ObjectKeyPolicy.KeyCheck.Visit` | src/platform/object-key-policy.ts:16-41 | a visit leaves every seen object off the recursion stack clean with all its children seen, or reports a violation |
| `ObjectKeyPolicy.KeyCheck.VisitChild` | src/platform/object-key-policy.ts:26-40 | one round of the visit loops extends the path by the index or key and keeps the same invariant |
| `ObjectKeyPolicy.ReservedWithPadding` | src/platform/object-key-policy.ts:1-5 | white space around a key does not change whether it is reserved |
| `ObjectKeyPolicy.ReservedNames` | src/platform/object-key-policy.ts:1-5 | which names are reserved: the property names of `Object.prototype` and "prototype" |
| `JsonScanner.AssertRawJsonNestingWithinBounds` | src/platform/json-bounds.ts:9-52 | the scanner throws exactly when some stretch of the text, its strings left out, opens more brackets beyond those it closes than the limit allows |
| `JsonScanner.ScannerRejectsExactly` | src/platform/json-bounds.ts:9-52 | on any text, JSON or not, the clamped running depth peaks over a limit exactly when there is such a stretch |
| `JsonScanner.ScanDocument` | src/platform/json-bounds.ts:9-52 | on every JSON text, with any white space and escapes, the scanner ends outside strings at depth 0 with the container nesting of the text as peak |
| `JsonRoundTrip.DocumentParses` | src/platform/json-bounds.ts:125 | the text of every RFC 8259 syntax tree, with any white space and any spelling of its characters, parses to the value of the tree |
| `JsonGrammar.AcceptsExactlyJson` | src/platform/json-bounds.ts:125 | the parser gives a value for a text exactly when the text is that of a syntax tree with this value |
| `JsonGrammar.DocumentRoundTrip` | src/platform/json-bounds.ts:98-125 | parsing the printed text of a JSON value gives the value back |
| `BoundedWalk.Walk` | src/platform/json-bounds.ts:54-87 | on any graph the walk passes exactly when its unfolding is within the depth and node limits, and stops after at most `maxNodeCount + 1` pops |
| `JsonBounds.UnfoldingOfValue` | src/platform/json-bounds.ts:54-87 | on a JSON value the unfolding is the value: the limits are its recursive height and node count |
| `JsonBounds.AssertJsonValueWithinBounds` | src/platform/json-bounds.ts:54-87 | the walk on a JSON value throws exactly when it has too many nodes or levels |
| `JsonBounds.SafeJsonStringifyWithinBounds` | src/platform/json-bounds.ts:89-106 | computes the specification `Stringified` with the walk |
| `JsonBounds.ParseJsonWithinBounds` | src/platform/json-bounds.ts:108-128 | computes the specification `Parsed` with the scanner, the parser and the walk |
| `JsonBounds.ParseAcceptsExactly` | src/platform/json-bounds.ts:108-128 | a text gives a value exactly when it is short enough, is the text of some RFC 8259 syntax tree, nests within the limit as written, and builds that value within bounds |
| `JsonBounds.ParseErrors` | src/platform/json-bounds.ts:108-128 | exactly which texts are rejected with each of the three errors |
| `JsonBounds.ScannerMeasuresText` | src/platform/json-bounds.ts:9-52 | on the text of every syntax tree the scanner ends outside strings at depth 0 with the nesting of the tree as peak |
| `JsonBounds.AssignedLast` | src/platform/json-bounds.ts:125 | of a repeated key the last value is built, and no key is lost or added |
| `JsonBounds.ByteLengthCounts` | src/platform/json-bounds.ts:101 | the measured length is one byte per character and one more from each of the codes 0x80, 0x800 and 0x10000 on |
| `JsonBounds.Limits` | src/platform/json-bounds.ts:1-7 | the limits without options are 16,000 nodes, 256 levels and 8 MiB, and options replace each |
| `JsonBounds.ScannerNeverOverrejects` | src/platform/json-bounds.ts:108-128 | without repeated keys the scanner never rejects a text whose value the walk accepts |
| `JsonBounds.RepeatedKeyOverrejected` | src/platform/json-bounds.ts:108-128 | a text with a repeated key that is rejected although the value it builds is within bounds |
| `JsonBounds.StringifyThenParse` | src/platform/json-bounds.ts:89-128 | what is printed within bounds is accepted under the same options and gives the value back |
| `ErrorDetailSanitizer.NormalizeYieldsNormal` | src/platform/error-detail-sanitizer.ts:36-42 | a normalized key is lower-case words joined by single underscores, and exactly those keys are left alone |
| `ErrorDetailSanitizer.NormalizeKeepsLetters` | src/platform/error-detail-sanitizer.ts:36-42 | the letters and digits of a normalized key are those of the key, in order and in lower case |
| `ErrorDetailSanitizer.NormalizeIdempotent` | src/platform/error-detail-sanitizer.ts:36-42 | normalizing twice is normalizing once, for all strings |
| `ErrorDetailSanitizer.CamelCaseSeparates` | src/platform/error-detail-sanitizer.ts:36-42 | a change from lower to upper case separates words as an underscore does |
| `ErrorDetailSanitizer.SeparatorsAreInterchangeable` | src/platform/error-detail-sanitizer.ts:36-42 | any run of other characters separates words as an underscore does |
| `ErrorDetailSanitizer.SensitivityIsUpToSpelling` | src/platform/error-detail-sanitizer.ts:44-56 | a key is sensitive exactly when its normal form is |
| `ErrorDetailSanitizer.SensitiveNormalKeys` | src/platform/error-detail-sanitizer.ts:6-56 | the names and endings that make a normalized key sensitive, and those that are exempt |
| `ErrorDetailSanitizer.SanitizeYieldsSanitized` | src/platform/error-detail-sanitizer.ts:73-108 | the result has no dropped key, nothing opaque, redacted strings, and only the marker below the depth limit |
| `ErrorDetailSanitizer.FixedExactlyWhenSanitized` | src/platform/error-detail-sanitizer.ts:73-108 | the sanitizer leaves a value alone exactly when it is already of that form |
| `ErrorDetailSanitizer.SanitizeIdempotent` | src/platform/error-detail-sanitizer.ts:73-108 | sanitizing twice is sanitizing once, if string redaction is off or idempotent |
| `ErrorDetailSanitizer.SanitizedIsClean` | src/platform/error-detail-sanitizer.ts:73-108 | a sanitized value has no dropped key at any level and nests at most two levels past the limit |
| `ErrorDetailSanitizer.ShallowPlainIsSanitized` | src/platform/error-detail-sanitizer.ts:73-108 | plain data that is shallow enough and free of dropped keys is already sanitized |
| `ErrorDetailSanitizer.SanitizeKeepsPaths` | src/platform/error-detail-sanitizer.ts:90-107 | a part reached through kept keys within the limit is found at the same path of the result |
| `ErrorDetailSanitizer.DeepPartsTruncated` | src/platform/error-detail-sanitizer.ts:73-108 | a part one level below the limit is replaced by the marker at its path |
| `ErrorDetailSanitizer.OpaqueItemsAbsent` | src/platform/error-detail-sanitizer.ts:73-108 | within the limit an array is sanitized as if its opaque items were not there, and keeps all others |
| `ErrorDetailSanitizer.OpaqueMembersAbsent` | src/platform/error-detail-sanitizer.ts:73-108 | within the limit an object is sanitized as if its opaque members were not there |
| `ErrorDetailSanitizer.MembersKeepKeys` | src/platform/error-detail-sanitizer.ts:90-107 | of the other members exactly those with a dropped key are missing, and the order is kept |
| `ErrorDetailSanitizer.ErrorDetailsSanitized` | src/platform/error-detail-sanitizer.ts:110-119 | these promises together for the sensitive keys and any depth limit |
| `WorkerPool.WorkerCount` | src/platform/concurrency.ts:52 | at least one worker, never more than tasks or concurrency allow, and no fewer than both allow |
| `WorkerPool.ClaimedInOrderAndBounded` | src/platform/concurrency.ts:36-53 | in every interleaving indices are claimed in order and once, and at most max(1, min(concurrency, n)) are in flight |
| `WorkerPool.SlotIffTaskFinished` | src/platform/concurrency.ts:42-48 | result slot i holds v exactly when the run of index i has finished with v |
| `WorkerPool.SettlesCorrectly` | src/platform/concurrency.ts:52-66 | the call settles only with nothing in flight; on an abort it throws the error made from the abort reason, else the error of the lowest-numbered rejected worker, else it returns the value of every index in its slot |
| `WorkerPool.AbortErrorIsCancellation` | src/platform/concurrency.ts:5-25 | for every abort reason the error is recognised as a cancellation and passes an outer pool unchanged; an error reason is kept exactly when its name or message says that it is one; the texts of all other errors |
| `WorkerPool.AllStartedUnlessAllReject` | src/platform/concurrency.ts:36-50 | without an abort and with a worker that did not reject, every index was started before the call settles |
| `WorkerPool.NoStartAfterAbort` | src/platform/concurrency.ts:37-40 | nothing is started after an abort |
| `WorkerPool.RunsAreBounded` | src/platform/concurrency.ts:36-53 | a run has at most 3n + workers + 2 steps |
| `WorkerPool.NeverStuck` | src/platform/concurrency.ts:36-53 | with nothing in flight some worker can go on or the call can settle |
| `BenchPlan.BuildBenchmarkPaths` | src/subsystems/bench/bench-runtime.ts:177-183 | exactly the paths that the mode asks for, the gateway first |
| `BenchPlan.BuildBenchTasks` | src/subsystems/bench/bench-runtime.ts:185-222 | routes x paths x (warmup + iterations) entries, sample index equal to position, and at each position the route, path, phase and iteration that division and remainder give |
| `BenchPlan.PositionDecodes` | src/subsystems/bench/bench-runtime.ts:195-219 | division and remainder recover route, path and run from a position |
| `BenchPlan.PositionCovers` | src/subsystems/bench/bench-runtime.ts:195-219 | every position below the length comes from one route, path and run |
| `BenchPlan.WarmupsFirst` | src/subsystems/bench/bench-runtime.ts:197-217 | in every block warm-ups come before measured runs, each phase counting up |
| `NumberText.PositiveIntegerRoundTrip` | src/platform/number-parsing.ts:5-16 | a text parses to n exactly when it is the decimal text of n and n is a positive safe integer |
| `NumberText.NonNegativeIntegerRoundTrip` | src/platform/number-parsing.ts:5-20 | the same for non-negative safe integers |
| `RouteArgs.ParseRoutesCreateArgs` | src/subsystems/cli/command-args-routes.ts:151-195 | the index loop over the arguments computes the recursive specification `Parse` |
| `RouteArgs.SpellsOnlyOne` | src/subsystems/cli/command-args-routes.ts:42-127 | an argument spells at most one flag of the tables, alone or with a joined value |
| `RouteArgs.SpelledReads` | src/subsystems/cli/input-utils.ts:193-223 | both spellings of a flag with a value are read as that value |
| `RouteArgs.ItemStep` | src/subsystems/cli/command-arg-primitives.ts:142-196 | one round of the flag loop takes a printed flag, value or name for what it says |
| `RouteArgs.ParsePrinted` | src/subsystems/cli/command-arg-primitives.ts:125-199 | after printed items the parser reaches the rest of the arguments with the items applied in order |
| `RouteArgs.AcceptsExactlyPrinted` | src/subsystems/cli/command-arg-primitives.ts:125-199 | an argument list is accepted exactly when it is the printing of valid items, in any order and spelling, with nothing positional after a name that is not empty |
| `RouteArgs.RejectsExactlyFaults` | src/subsystems/cli/command-arg-primitives.ts:125-199 | an argument list is rejected with a message exactly when after the printing of valid items it goes on with a fault of that message |
| `RouteArgs.BooleanFlagNames` | src/subsystems/cli/command-args-routes.ts:42-127 | which field each boolean flag of the command line sets |
| `RouteArgs.TextFlagNames` | src/subsystems/cli/command-args-routes.ts:42-127 | which field each flag with a text value sets |
| `RouteArgs.NumberFlagNames` | src/subsystems/cli/command-args-routes.ts:42-127 | which field the timeout and each cost flag set |
| `RouteArgs.SpellingsInterchangeable` | src/subsystems/cli/input-utils.ts:193-223 | `--flag value` and `--flag=value` of a non-empty value give the same result for long flags and the timeout |
| `RouteArgs.CostFlagsAreNotJoined` | src/subsystems/cli/command-arg-primitives.ts:303-317 | a cost flag with a joined value is an unknown flag |
| `RouteArgs.LastOccurrenceWins` | src/subsystems/cli/command-arg-primitives.ts:125-199 | every command line of valid items is accepted and sets each field to the last occurrence of its flag |
| `RouteArgs.RoundTrip` | src/subsystems/cli/command-args-routes.ts:151-195 | printing a state in any flag order and spelling and parsing it gives the state back |
| `RouteArgs.StateRoundTrip` | src/subsystems/cli/command-args-routes.ts:151-195 | there is a printer for every state the commands can hold, and the parser is its inverse |
| `ImportDiff.SanitizeConfigDocumentForDisplay` | src/subsystems/config/read-model.ts:134-155 | the masking loop computes the redacted document |
| `ImportDiff.RedactionIdempotent` | src/subsystems/config/read-model.ts:134-155 | redacting twice is redacting once |
| `ImportDiff.RedactionFixpoints` | src/subsystems/config/read-model.ts:134-155 | redaction changes nothing exactly when no provider has an inline key other than the mask |
| `ImportDiff.RedactionHidesKeys` | src/subsystems/config/config-file.ts:41-61 | a redacted document has inline keys exactly when the original has, and all of them are the text `***masked***` |
| `ImportDiff.RedactionKeepsTheRest` | src/subsystems/config/read-model.ts:134-155 | redaction keeps every other field of the document and of every provider |
| `ImportDiff.InlineKeyExactly` | src/subsystems/cli/config-write-commands.ts:45-46 | an inline key is a string at `api_key` that is not only white space |
| `ImportDiff.DescribeInlineApiKeyChanges` | src/subsystems/cli/config-write-commands.ts:58-88 | the loop computes the descriptions over the sorted union of provider names |
| `ImportDiff.DescribesExactly` | src/subsystems/cli/config-write-commands.ts:68-85 | over any list of names, exactly the names whose key was added, removed or changed are described, each by its kind of change |
| `ImportDiff.ProvidersDescribed` | src/subsystems/cli/config-write-commands.ts:58-88 | for a sort that keeps what it sorts, a text is among the descriptions exactly when it describes the change of a provider name whose inline key differs between the documents |
| `ImportDiff.ChangeKinds` | src/subsystems/cli/config-write-commands.ts:68-85 | a key is added exactly when only the next document has it, removed exactly when only the current one has it, and changed exactly when both have different ones |
| `ImportDiff.DisplayNameFacts` | src/subsystems/cli/config-write-commands.ts:28-30 | a shown name is printable, at most 128 long, and the name itself if that is both |
| `ImportDiff.RenderRedactedConfigImportDiff` | src/subsystems/cli/config-write-commands.ts:217-247 | the renderer computes its specification from the redacted texts and the descriptions |
| `ImportDiff.DiffShows` | src/subsystems/cli/config-write-commands.ts:185-247 | the shown text is the diff of the current text, as shown, with the redacted next one, or the notice for its case; where keys changed it is followed by one line per provider whose key differs, in the order of the sort, and no other |
| `ImportDiff.DiffNonInterference` | src/subsystems/cli/config-write-commands.ts:185-247 | two imports that agree after redaction and in the kind of change of each provider's key show the same text; a current text that is no object acts only through its redacted raw text |
| `LogLines.LineReader.FlushTextLine` | src/subsystems/gateway/gateway-logs-command.ts:124-139 | a line that the filters let through is appended to the entries, or written through with follow |
| `LogLines.LineReader.OnData` | src/subsystems/gateway/gateway-logs-command.ts:141-151 | after any chunk the output is the filtered complete lines of all text so far and the buffer is the unfinished line |
| `LogLines.LineReader.OnClose` | src/subsystems/gateway/gateway-logs-command.ts:166-186 | at close the output is the filtered newline split of all text; a failed attempt has no entries |
| `LogLines.RunAttempt` | src/subsystems/gateway/gateway-logs-command.ts:113-188 | for every cutting of the text into chunks the entries are the filtered newline split of the whole text: exactly its lines that are not empty, not the journal's "no entries" marker and pass the filters |
| `LogLines.SplitIsExact` | src/subsystems/gateway/gateway-logs-command.ts:144-150 | the pieces have no newline and joined by newlines are the text |
| `LogLines.TextSurvivesExactlyBetweenCharacters` | src/subsystems/gateway/gateway-logs-command.ts:141-142 | a UTF-8 stream cut into byte chunks is received as the text that was sent exactly when no chunk starts inside a character |
| `LogLines.EntriesOfByteStream` | src/subsystems/gateway/gateway-logs-command.ts:120-169 | for such cuttings and any filters the entries are the filtered newline split of the text that was sent |
| `LogLines.EntriesSurviveExactlyBetweenCharacters` | src/subsystems/gateway/gateway-logs-command.ts:120-169 | with filters that let through every line with a non-ASCII character, the entries are those of the text that was sent exactly when no chunk starts inside a character |
| `LogLines.CutCharacterWitness` | src/subsystems/gateway/gateway-logs-command.ts:141-142 | a two-byte character cut in the middle arrives neither in the text nor in the entries of an attempt without filters |
| `ConfigCatalog.LoadSection` | src/subsystems/config/config.ts:199-232 | a section loads exactly when all names are safe and all entries valid, and then holds exactly the validated entries |
| `ConfigCatalog.LoadValidatedConfigSnapshot` | src/subsystems/config/config.ts:184-232 | the load gives the one snapshot that the sections describe, or fails when there is none |
| `ConfigCatalog.LoadedProviderFields` | src/subsystems/config/config-validators-entities.ts:115-131 | a loaded provider's inline key is its non-blank printable `api_key`, its variable its managed `api_key_env`, and one of the two fields is there |
| `ConfigCatalog.ProviderLoadsExactly` | src/subsystems/config/config-validators-entities.ts:115-131 | a provider entry is valid exactly when both key fields are absent, null or well-formed strings and at least one is there |
| `ConfigCatalog.HeaderCharset` | src/subsystems/config/provider-auth.ts:6 | the characters of a key: tab and the codes 32 to 126 |
| `ConfigCatalog.ManagedNames` | src/subsystems/config/config-validators-primitives.ts:47 | a managed name is the prefix and a word of capitals, digits and underscores that starts with a capital |
| `ConfigCatalog.RouteLoadsExactly` | src/subsystems/config/config-validators-entities.ts:238-299 | a route entry is valid exactly when it names a loaded model and a loaded provider and, where keys are demanded, that provider's key can be had |
| `ConfigCatalog.RouteOfSnapshot` | src/subsystems/config/config-validators-entities.ts:238-299 | a loaded route names a loaded model and provider and carries that provider's key fields |
| `ConfigCatalog.RuntimeKeysResolveAsLabelled` | src/subsystems/config/provider-auth.ts:55-78 | after a runtime load no route's key resolution throws; the key is the `api_key` of the entry of the route's provider, or else the override or else the environment value of the variable it names; and its source is that provider's label in the read model |
| `ConfigCatalog.KeysDemandedExactly` | src/subsystems/config/config-validators-entities.ts:257-281 | of the configs that load without demanding keys, the load that demands them accepts exactly those in which every route's key resolves |
| `ConfigCatalog.SmallConfigLoads` | src/subsystems/config/config.ts:184-232 | a config with one provider, model and route that the runtime load accepts, whose key comes from the environment |
| `ConfigCatalog.CliLoadAcceptsToo` | src/subsystems/config/config.ts:249-263 | a config that the runtime accepts also loads for the command line, with the same providers and models |
| `ConfigCatalog.CountRoutes` | src/subsystems/config/read-model.ts:297-303 | the reduce counts the routes of every model |
| `ConfigCatalog.CountOfPositions` | src/subsystems/config/read-model.ts:297-303 | the count of a model is the number of positions whose route names it |
| `ConfigCatalog.IndexByName` | src/subsystems/config/read-model.ts:343-356 | an index holds exactly the entries of its list, each under its name |
| `ConfigCatalog.LoadCliReadModel` | src/subsystems/config/read-model.ts:256-358 | the route counts of the models add up to the number of routes, the three indexes are exact, every route view names the model and provider of its entry, and every provider is labelled with the source of its key |
| `GatewayTimers.Lifecycle.constructor` | src/subsystems/gateway/gateway-runner.ts:193-211 | after start-up an interval is live exactly when the initial runtime configures retention |
| `GatewayTimers.Lifecycle.ClearRetentionPruneTimer` | src/subsystems/gateway/gateway-runner.ts:238-243 | no interval is live after a clear |
| `GatewayTimers.Lifecycle.SyncRetentionPruneSchedule` | src/subsystems/gateway/gateway-runner.ts:194-208 | after a completed sync one interval is live exactly when the active runtime configures retention |
| `GatewayTimers.Lifecycle.TriggerGracefulShutdown` | src/subsystems/gateway/gateway-runner.ts:231-249 | the shutdown callback's clears leave no interval live, however often it calls them and even if it throws |
| `GatewayTimers.Lifecycle.ReloadActiveConfig` | src/subsystems/gateway/gateway-runner.ts:259-269 | the new runtime is active once loaded; the schedule follows it only if nothing threw before the sync |
| `GatewayTimers.Lifecycle.Handle` | src/subsystems/gateway/gateway-runner.ts:251-295 | every handler keeps at most one live interval, the one the variable holds, and leaves the runtime and the schedule that its event and its failures call for |
| `GatewayTimers.RunLifecycle` | src/subsystems/gateway/gateway-runner.ts:193-303 | over every event sequence at most one interval is live, and the last completed sync or clear decides whether there is one |
| `GatewayTimers.FailuresKeepSchedule` | src/subsystems/gateway/gateway-runner.ts:251-295 | failed reloads and shutdowns that never clear leave the schedule of the last sync in place |

## Left out

- Network and process calls (`fetch`, `spawn`, signals, server sockets): their outcomes are parameters of the model.
- The proxy and hot path, the observability store, the optimize executor and the config mutation commands.
- Flat field checks (`validateRuntimeSettings`, endpoint policy, cost, API mode, bind policy, duration parsers): they are parameters of `ConfigCatalog.Loader`, and no property here turns on what they check.
- Regex redaction of raw text (`redactSensitiveText`, `redactInlineApiKeyFieldsInRawJsonText`), the text differ and the pretty-printing serializer: parameters of the model.
- Symbolic links: the lock path is one path, `resolveCanonicalConfigMutationLockPath` is not modelled.
- The generic flag parser for other commands: `RouteArgs` models it with the tables of the route commands.
- The names reserved by the object-key policy are a parameter of `ConfigCatalog.Loader`; the policy itself is in `ObjectKeyPolicy`.
- The `error` event and the stderr text of a `journalctl` attempt.
- Lone surrogates: strings are sequences of Unicode scalar values, so an escape of a lone surrogate is outside the JSON parser of the model, and lengths count scalar values instead of UTF-16 units.
- Objects that JSON cannot express (`toJSON`, getters, typed arrays) in printing, and the call-stack limit of the recursive key check.
- `Number` on cost flags is a parameter, and floating-point rounding is not modelled.
- Holes in the array given to the worker pool, which its type rules out, and fractional concurrency.
- ConfigReplace.ConfigDirectory.WriteAtomically: models a writer that does not die; deaths are covered by the transition system of the same module.
- The directories: `mkdirSync` with mode 0700 for the backups, the umask, and who may enter a directory; a file's privacy is its own mode.
- LockedReplace.LockedWritesKeepPromises: speaks of runs up to the first theft; what a theft leads to is shown for the lock alone and for overlapping writers alone.
- JsonBounds.ParseAcceptsExactly: built objects keep the written order of their keys, while JavaScript lists integer-like keys first; and a text with the escape of a lone surrogate is outside the parser.
- JsonScanner.ScanDocument: a text with the escape of a lone surrogate is outside the parser.
- JsonGrammar.AcceptsExactlyJson: the syntax trees spell Unicode scalar values, so a text with the escape of a lone surrogate is none of theirs.
- GatewayTimers.Lifecycle.Handle: the other fields of a runtime and the log output are not modelled.
