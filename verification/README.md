# Verified models of the vi-history-suite governance scripts

The scripts of this repository are reporting tools around a handful of small engines: an archive
writer, a file-system mutex, CSV tokenizers, glob compilers, a Markdown printer, three ledgers and
a governed write path. This project models those engines in Dafny and proves what they promise, for
every input, every run and every interleaving. `dafny verify dfyconfig.toml` checks all of it.

| modules | engine |
|---|---|
| `Ustar`, `UstarReader`, `ContentDigest` | the ustar archive writer, an independent reader of the ustar Interchange Format (POSIX.1, IEEE Std 1003.1, `pax` utility), and the canonical text behind the content digest |
| `Lease`, `LeaseMachine`, `LeaseClients` | the lease mutex: its calls on the gate directory, all interleavings of their steps, and the bounded acquire loops of its two clients |
| `Csv`, `CsvGuard`, `CsvLines`, `CsvPrinter` | four tokenizers against one scanner, the column guard, what its row numbers mean in the text, and a printer after RFC 4180, section 2 |
| `Regex`, `GlobCompiler`, `GlobCatchAll`, `GlobSteward` | two glob compilers, the expressions they emit as syntax trees with a language, a direct glob matcher, and the guard against patterns that match everything |
| `CodeSpan` | the Markdown code-span printer and a reader after CommonMark 0.31.2, section 6.1 |
| `MirrorLedger`, `RiskLedger`, `PhaseJoin` | the idempotent benchmark upsert, the risk ranking, the phase join of the launch gate |
| `BoardSync`, `BoardSyncRuns` | the governed board sync: authorization, plan, apply-and-log loop, interrupted runs |
| `Prelude`, `Ordering` | results, trimming, stable sorting and filtering |

Code that changes state keeps that form: the header block is an array written in place, the gate
directory and the board are classes, every tokenizer and scan is a loop. Each such method is tied to
a function of its inputs or of the old state, and the properties are lemmas about that function.
Hashes are parameters, collision-free only where a property says so; `localeCompare` is an arbitrary
total preorder; times are integers; paths in archives are byte sequences. The tokenizers, glob
compilers and printers work on Dafny characters.

## What the proofs found

The model follows the code. Where the code does less than its comments or its callers suggest, the
project proves when exactly it does, or that a whole family of cases fails:

- Reclaiming a stale lease is three operations. Any two idle processes that meet a stale lock can both
  end up holding it (`LeaseMachine.RacingReclaim`). Without reclaim, exclusion holds over every
  interleaving (`Exclusion`); with it, as long as every removal finds the lease it was decided on
  (`GuardedExclusion`).
- A process that dies between making the lock directory and writing owner.json leaves a lock that
  nothing ever removes, not even a forced release (`LeaseMachine.OrphanIsPermanent`).
- An undisturbed release of the push hook that does not carry another process's token evicts another process
  exactly when it has no token and shares that process's identity (`LeaseClients.HookEvictsExactlyWhen`); the comment at
  `scripts/prePushGate.js:206-208` says it cannot.
- The push hook's acquire loop does not catch what `acquireLease` throws, as it does when a reclaim loses its
  race (`scripts/agentGateway.js:127-130`): it ends without degrading to advisory exactly when one of the
  allowed answers throws before any grant (`LeaseClients.CliAcquire`). The hook ignores its exit status
  (`.githooks/pre-push:40`), so the push goes on without a lease and without a record of that attempt.
- The guard's row numbers are called physical lines (`scripts/checkRequirementsCsvColumns.js:55-56`). They
  count the line ends outside quotes, and are physical lines exactly as long as no line end before the row
  stands inside quotes (`CsvLines.RowNumberIsPhysicalExactlyWhen`).
- The steward's placeholder can collide with patterns that do not contain it whole, for instance
  `___DOUBLESTAR**` (`GlobSteward.PassesAreIntended` gives the exact condition).
- The catch-all guard is inexact both ways. Of the patterns it rejects only `**` and `**/*` accept every file;
  `././**`, which is what it sees of a frontmatter pattern `./././**`, is rejected and does not
  (`GlobCatchAll.RejectedCatchesAllExactlyWhen`, `GuardRejectsANarrowPattern`). It lets through every other
  pattern that accepts every file, `**/**`, `***`, `**\*` and `**?` among them (`GuardMissesExactlyWhen`);
  which patterns those are is decided by four files (`MatchesEveryFileExactlyWhen`).
- The board planner accepts an item with an empty id, which the resolver refuses; such an update blocks
  every update behind it (`BoardSync.EmptyIdIsPlannedButNotResolved`, `BoardSyncRuns.EmptyIdBlocks`).
- A run of the board sync that stops between an edit and its log entry leaves that edit out of the log
  for good, because the next plan no longer contains it (`BoardSyncRuns.LogMirrorsWrites` counts these).
- The two glob compilers differ exactly on patterns with `**` followed by a slash
  (`GlobSteward.CompilersAgreeExactlyWhen`).

## Model

| member | source | states |
|---|---|---|
| Ustar.BuildUstarHeader | scripts/buildDevToolsRelease.js:170-206 | fails exactly when the path cannot be split into a name of at most 100 and a prefix of at most 155 bytes; otherwise the block written in place is the fields side by side, each in its own width, with the checksum text over the spaces it was summed with |
| Ustar.WriteAt | scripts/buildDevToolsRelease.js:186-203 | a buffer write replaces exactly the bytes of the clipped text and no other |
| Ustar.WriteOctalField | scripts/buildDevToolsRelease.js:164-168 | on a header filled up to `offset`, fills exactly one numeric field more: zero-padded octal digits and a NUL |
| Ustar.WriteFields | scripts/buildDevToolsRelease.js:185-199 | the writes in their order never overlap: they leave all fields side by side, the checksum field all spaces, and the rest of the block zero |
| Ustar.ByteSum | scripts/buildDevToolsRelease.js:200-204 | the loop returns the sum of all bytes of the block |
| Ustar.ReplaceChecksum | scripts/buildDevToolsRelease.js:204 | writing the checksum text changes only the checksum field, whatever the other fields hold |
| Ustar.HeaderParts | scripts/buildDevToolsRelease.js:185-199 | a header is 512 bytes, and its checksum field stands alone at bytes 148 to 155 |
| Ustar.BuildToolsetTar | scripts/buildDevToolsRelease.js:217-228 | succeeds exactly when every path fits a header, and then yields every entry in order, padded to blocks, and two zero blocks |
| Ustar.PackFile | scripts/buildDevToolsRelease.js:220-224 | one round of the loop: header block and padded content of the file, or the header's error |
| UstarReader.NumberReadsBack | scripts/buildDevToolsRelease.js:164-168 | a numeric field of n digits read as octal gives the number written exactly when it is below 8^n; a larger one is unreadable |
| UstarReader.ChecksumFits | scripts/buildDevToolsRelease.js:199-204 | the byte sum is at most 512*255, below 8^6, so six digits always suffice and the field reads back as the sum |
| UstarReader.WrittenChecksumVerifies | scripts/buildDevToolsRelease.js:199-204 | the stored checksum verifies on the finished block, for every name, prefix and size |
| UstarReader.FieldAt | scripts/buildDevToolsRelease.js:185-198 | every field stands between the widths of the fields before it and its own, so none reaches into another |
| UstarReader.HeaderHoldsFields | scripts/buildDevToolsRelease.js:185-198 | name, size, type, magic, version and prefix stand at the offsets the format gives them |
| UstarReader.HeaderIsNormalized | scripts/buildDevToolsRelease.js:185-198 | mode reads as 0644, owner, group and time as zero, and link, owner and group names are empty, whatever the file: headers depend on path and size only |
| UstarReader.NumbersAreTerminated | scripts/buildDevToolsRelease.js:164-204 | every number of a header whose size fits its field is octal digits up to a NUL in the last byte of the field, and the checksum is six octal digits, a NUL and a space |
| UstarReader.SplitExactlyWhen | scripts/buildDevToolsRelease.js:171-183 | a path of at most 100 bytes is the name; a longer one splits into a prefix and a name if and only if they rejoin at a slash, the name holds none, the prefix has 1 to 155 bytes and the name at most 100 |
| UstarReader.PathReadsBack | scripts/buildDevToolsRelease.js:171-183 | prefix, slash and name rebuild every path the builder accepts if and only if the path holds no NUL |
| UstarReader.HeaderReadsBack | scripts/buildDevToolsRelease.js:170-206 | a header reads back as its size exactly when that is below 8^11, and as its path exactly when that is NUL-free; it never looks like the end of an archive |
| UstarReader.ReadEntry | scripts/buildDevToolsRelease.js:208-224 | the reader, which demands a valid header and zero bytes up to the next block boundary, takes exactly one header and its padded content off and goes on right behind |
| UstarReader.ArchiveRoundTrip | scripts/buildDevToolsRelease.js:217-228 | the reader, which demands zero padding, returns exactly the files that went in, in order, and stops right behind the two zero blocks, if and only if every path is NUL-free and every content shorter than 8^11 bytes |
| UstarReader.ArchivesDiffer | scripts/buildDevToolsRelease.js:217-228 | different lists of readable files have different images, and no image is a proper prefix of another |
| ContentDigest.CanonicalUnderPermutation | scripts/buildDevToolsRelease.js:118-127 | the hashed text does not depend on the order in which the files were found |
| ContentDigest.CanonicalTextIs | scripts/buildDevToolsRelease.js:121-127 | for at least one newline-free path and 64-character digests the lines of the text are exactly one `path:digest` per file, in character order |
| ContentDigest.CanonicalTextIdentifies | scripts/buildDevToolsRelease.js:121-127 | for newline-free paths and 64-character digests two texts are equal exactly when the multisets of path and digest are |
| ContentDigest.ContentDigestIdentifies | scripts/buildDevToolsRelease.js:121-127 | with a collision-free hash the digest itself identifies the multiset |
| Lease.GateDir.Mkdir | scripts/agentGateway.js:118 | the creation succeeds exactly when no lock directory exists, and then leaves one without owner.json |
| Lease.GateDir.TryWrite | scripts/agentGateway.js:117-121 | succeeds exactly when no lock directory exists, and then holds the lease; otherwise nothing changes |
| Lease.GateDir.AcquireLease | scripts/agentGateway.js:111-134 | undisturbed: granted on a free lock or, by reclaim, on a stale lease, and then the lock holds the resource, owner, token, time and time to live the caller gave, 300 seconds where it gave none; refused with the holder otherwise; no other resource is touched |
| Lease.GateDir.ReleaseLease | scripts/agentGateway.js:137-143 | undisturbed: frees the lock exactly when the decision allows it, with the decision's reason; no other resource is touched |
| Lease.GrantedExactlyWhen | scripts/agentGateway.js:43-47 | an acquire is granted exactly when the lock is free or its written lease is past its time to live |
| Lease.NextAcquireExactlyWhen | scripts/agentGateway.js:75-134 | after a grant that was neither released nor followed by another, the next acquire is granted if and only if more than the time to live the first one asked for, or else five minutes, has passed since |
| Lease.AcquireAnswers | scripts/agentGateway.js:117-133 | a grant names the owner it was reclaimed from exactly when there was a lease in the lock, and a refusal names the holder |
| Lease.ReleasedExactlyWhen | scripts/agentGateway.js:63-71 | a release succeeds exactly on a held lock and by force, the token of the lease or its owner, and gives the first of these that applies as the reason; a refused one says what was missing and who holds the lock |
| Lease.PerformSafe | scripts/agentGateway.js:111-143 | every call under a monotone clock and with a fresh token keeps the safety invariant |
| Lease.RunSafe | scripts/agentGateway.js:111-143 | after any series of acquire and release calls, reclaims included, the lock holds the latest grant exactly if that was not released and is free otherwise, and every other unreleased grant is stale |
| Lease.OneLiveGrant | scripts/agentGateway.js:43-47 | at most one grant is unreleased and within its time to live, and it is the one in the lock |
| Lease.LateReleaseRefused | scripts/agentGateway.js:63-71 | a holder whose lease was reclaimed cannot release the new holder's lease with its token |
| LeaseMachine.EventKeepsInv | scripts/agentGateway.js:111-143 | every single step of every process, crash and tick keeps the mutex invariant as long as removals find the lease they were decided on |
| LeaseMachine.RunKeepsInv | scripts/agentGateway.js:111-143 | the invariant holds after every interleaving of such events |
| LeaseMachine.Exclusion | scripts/agentGateway.js:111-143 | when no lease read is ever stale and callers release with their own credentials, at most one process is between its successful mkdir and the end of its removal, over every interleaving, crashes included |
| LeaseMachine.NobodyRemovesAnothersLock | scripts/agentGateway.js:137-143 | under the same condition whoever is about to remove a lock removes a lease that was issued to it |
| LeaseMachine.GuardedExclusion | scripts/agentGateway.js:123-131 | with reclaims that find the lease they read: of two processes inside at once one holds a reclaimed lease past its time to live |
| LeaseMachine.NoReclaimIsGuarded | scripts/agentGateway.js:126-130 | while no lease is read as stale, every removal is guarded and nothing is ever evicted |
| LeaseMachine.CheckLeadsToOwn | scripts/agentGateway.js:63-71 | a release with a caller's own credentials is only ever allowed on the caller's own lease |
| LeaseMachine.LockChangesExactly | scripts/agentGateway.js:111-143 | in any state whatsoever: only a mkdir makes a free lock, a lease appears only in an existing directory and by the process it is for, and a lock becomes free only by the second half of a removal of an empty directory |
| LeaseMachine.CallsEnd | scripts/agentGateway.js:111-143 | nobody waits: whatever other processes do in between, a call is over after at most six steps of its own, from any state |
| LeaseMachine.OrphanIsPermanent | scripts/agentGateway.js:117-119 | a directory without owner.json and without a process at work in it stays for ever, whatever happens, and lets nobody in |
| LeaseMachine.DeathOrphansExactlyWhen | scripts/agentGateway.js:117-119 | a process that dies after its mkdir and before its write leaves such a directory if and only if no process has already decided to remove the lock |
| LeaseMachine.UndisturbedAcquire | scripts/agentGateway.js:111-134 | the steps of one acquire, run without interruption, do what the atomic acquire does |
| LeaseMachine.DeadHolderIsReplacedExactlyWhen | scripts/agentGateway.js:43-47 | when a holder dies, the undisturbed acquire of another process takes its place if and only if the time to live of the lease has passed by then; otherwise the lease stays |
| LeaseMachine.UndisturbedRelease | scripts/agentGateway.js:137-143 | the steps of one release, run without interruption, do what the atomic release does; a holder that is refused stays a holder |
| LeaseMachine.RacingReclaim | scripts/agentGateway.js:126-130 | from every state with a stale lock any two idle processes can both come to hold it, although nobody releases |
| LeaseMachine.SharedIdentityEvicts | scripts/agentGateway.js:69 | a process that was granted nothing removes the lock of a holder with the same identity |
| LeaseClients.CliAcquire | scripts/prePushGate.js:170-195 | stops at the first grant, degrades to advisory after exactly the allowed attempts (the configured number, 6 without one), leaves one ledger record for every refused attempt and waits once before every further one; it ends with an uncaught error if and only if one of the allowed answers throws and all before it are refusals |
| LeaseClients.RunLaunchAcquire | scripts/agentLaunchGate.js:148-201 | the same for the launch gate with 5 attempts unless configured, where a throwing acquire counts as a refusal, so that it always returns, and the capability is sampled at most once for all records |
| LeaseClients.ResolveMaxAttempts | scripts/prePushGate.js:57-61 | an integer budget of at least one is used as it is, otherwise a default of at least one, otherwise 6 |
| LeaseClients.BackoffInRange | scripts/prePushGate.js:41-45 | every backoff is positive and at most its cap |
| LeaseClients.WaitsDouble | scripts/prePushGate.js:41-45 | the first wait of an acquire is the base and every further one twice the one before it, up to the cap |
| LeaseClients.WaitBounded | scripts/prePushGate.js:178-195 | the waits of one acquire add up to at most attempts times cap |
| LeaseMachine.RunKeepsTokens | scripts/agentGateway.js:75-85 | whatever processes do, with forced releases, foreign credentials and racing reclaims, every lease carries the token and the identity it was issued with |
| LeaseClients.HookFreesExactlyWhen | scripts/prePushGate.js:200-211 | in every such state, and so in every state any run reaches, the hook's undisturbed release frees the lock if and only if its token is the one in the lock or, without a token, its identity is the holder's; otherwise the lock stays |
| LeaseClients.HookEvictsExactlyWhen | scripts/prePushGate.js:200-211 | unless it carries another process's token, it frees the lock of another process if and only if it has no token and shares that process's identity |
| Csv.StewardRows | scripts/auditTraceabilitySteward.js:84-137 | the tokenizer loop returns the kept records of the scanner, on every text |
| Csv.StewardParseCsv | scripts/auditTraceabilitySteward.js:84-147 | its records are the rows under the first one as header, missing cells empty, later columns of a name winning |
| Csv.CoverageParseCsv | scripts/mapCoverageToTraceability.js:86-134 | the second copy returns the same records on every text |
| CsvGuard.RecordKeys | scripts/auditTraceabilitySteward.js:139-146 | a record of either header-mapped parser has exactly the names of the header |
| CsvGuard.RecordHoldsLast | scripts/auditTraceabilitySteward.js:139-146 | and under each name the cell of its last column, or nothing where the row is too short |
| CsvGuard.ParseCsvRows | scripts/checkRequirementsCsvColumns.js:60-123 | the line-numbering copy returns the same kept records, each numbered by its place among all records |
| CsvGuard.NumberedCells | scripts/checkRequirementsCsvColumns.js:60-123 | its cells are those of the other two tokenizers on every text |
| CsvGuard.LineNumbersCountRecords | scripts/checkRequirementsCsvColumns.js:98-120 | line numbers strictly increase, and each is the place of the row's record among all records, dropped ones included |
| CsvGuard.OnlyTheLastIsOpen | scripts/checkRequirementsCsvColumns.js:98-120 | every record but the last is closed by an unquoted line end, so counting records counts those |
| CsvGuard.ParseCsvLine | scripts/checkDefinitionOfDone.js:115-135 | the single-line tokenizer's loop against its recursive reading |
| CsvGuard.SingleLineAgreement | scripts/checkDefinitionOfDone.js:115-135 | on text without line ends it agrees with the multi-line tokenizers except that a lone empty cell is no row to them |
| CsvGuard.CheckCsv | scripts/checkRequirementsCsvColumns.js:130-155 | reports the header, the ids and exactly the data rows whose number of columns is not the header's |
| CsvGuard.IdsAreFirstCells | scripts/checkRequirementsCsvColumns.js:137-155 | the ids are the first cells of the data rows, in order |
| CsvGuard.ViolationsExactly | scripts/checkRequirementsCsvColumns.js:137-146 | a violation is reported if and only if some row has another width, with that row's line, id and width |
| CsvGuard.RebuiltExactlyWhen | scripts/auditTraceabilitySteward.js:139-146 | under distinct header names a row survives the header mapping exactly when it has the header's number of columns |
| CsvGuard.GuardProtectsRecords | scripts/checkRequirementsCsvColumns.js:130-155 | on a text with distinct header names the guard reports nothing if and only if every data row can be rebuilt from its header-mapped record |
| CsvPrinter.PrintedRecords | scripts/auditTraceabilitySteward.js:84-137 | whatever a writer quotes and whichever line ends it uses, the printed records come back in order |
| CsvPrinter.CsvRoundTrip | scripts/auditTraceabilitySteward.js:84-137 | tokenizing a printed table gives back exactly the table if and only if every row with a line end behind it has a non-empty cell and the last one without is not a lone empty cell |
| CsvLines.RecordsBehind | scripts/checkRequirementsCsvColumns.js:60-123 | at every position where a line starts outside quotes, the records closed before it are as many as the line ends outside quotes (CR LF once), and the rest of the text is tokenized as if it stood alone |
| CsvLines.RowStart | scripts/checkRequirementsCsvColumns.js:98-120 | every row starts at such a position |
| CsvLines.RowNumberCountsOutsideEnds | scripts/checkRequirementsCsvColumns.js:98-120 | a row's number is one more than the line ends outside quotes before its start |
| CsvLines.RowNumberIsPhysicalExactlyWhen | scripts/checkRequirementsCsvColumns.js:54-120 | the number is the physical line the row starts on if and only if no line end before it stands inside quotes; it is never larger |
| CsvPrinter.QuotedBreakIsNotCounted | scripts/checkRequirementsCsvColumns.js:98-120 | an instance: a two-row table whose second row stands on the third line and is numbered 2 |
| Regex.StarDotLang | scripts/auditCustomizationGovernance.js:179 | `.*` matches exactly the texts without line terminators |
| Regex.DotLang | scripts/auditCustomizationGovernance.js:179 | `.` matches every character but the four line terminators of ECMAScript |
| Regex.StarNotSlashLang | scripts/auditCustomizationGovernance.js:185 | `[^/]*` matches exactly the texts without a slash |
| Regex.DirectoriesLang | scripts/auditCustomizationGovernance.js:174 | `.*/` matches exactly the texts that end in a slash with no line terminator before it |
| GlobCompiler.GlobToRegex | scripts/auditCustomizationGovernance.js:163-204 | the index loop emits, between the anchors, the text of every piece of the trimmed and normalized pattern |
| GlobCompiler.NormalizedExactly | scripts/auditCustomizationGovernance.js:163-164 | the normalized pattern is the text between the white space at both ends, then less one leading `./`, with slashes for backslashes, and nothing else |
| GlobCompiler.BodyParses | scripts/auditCustomizationGovernance.js:163-204 | the emitted text always parses, into the tree of the pattern: every other character is a literal and no literal is quantified |
| GlobCompiler.TreeMatches | scripts/auditCustomizationGovernance.js:163-204 | the language of that tree is what the direct glob matcher accepts |
| GlobCompiler.CompilationPreservesMeaning | scripts/auditCustomizationGovernance.js:163-204 | for every pattern and path the compiled expression accepts the path if and only if the direct matcher does |
| GlobCompiler.SameDepth | scripts/auditCustomizationGovernance.js:184-192 | a pattern without `**` only matches paths with the same number of slashes |
| GlobCompiler.DoubleStarMatches | scripts/auditCustomizationGovernance.js:172-182 | `**` matches exactly the paths without line terminators |
| GlobCatchAll.DirectoriesThenStarMatches | scripts/auditCustomizationGovernance.js:172-187 | `**/*` matches every such path |
| GlobCatchAll.CatchAllExactlyWhen | scripts/auditCustomizationGovernance.js:163-204 | a pattern accepts every newline-free text if and only if it is any number of `**/`, and then a `**` with nothing but stars behind it or, behind at least one of them, a last `*` |
| GlobCatchAll.MatchesEveryFileExactlyWhen | scripts/auditCustomizationGovernance.js:163-204 | a pattern accepts every file path (segments not empty, single slashes between them, one line) if and only if it is such a pattern, or stars around a single `?` of which one side is such a pattern, or `**/` and more stars on the left and `*` on the right; it does so if and only if it accepts `a`, `b`, `ab` and `a/b` |
| GlobCatchAll.AroundOneMatches | scripts/auditCustomizationGovernance.js:163-204 | such stars around a `?` accept every file path |
| GlobCatchAll.FourFilesDecide | scripts/auditCustomizationGovernance.js:163-204 | accepting the four files leaves a pattern no other form |
| GlobCatchAll.RejectedExactlyWhen | scripts/auditCustomizationGovernance.js:520-529 | the guard rejects, up to white space at the ends, exactly eight spellings |
| GlobCatchAll.AcceptsEveryPathExactlyWhen | scripts/auditCustomizationGovernance.js:163-204 | the first of these of the compiled expression and the normalized pattern |
| GlobCatchAll.AcceptsEveryFileExactlyWhen | scripts/auditCustomizationGovernance.js:206-229 | the second, for the paths the repository listing can yield |
| GlobCatchAll.RejectedCatchesAllExactlyWhen | scripts/auditCustomizationGovernance.js:520-552 | a pattern the guard rejects, compiled as the caller would compile it, accepts every file, or every text, if and only if it is, stripped once, `**` or `**/*` |
| GlobCatchAll.GuardRejectsANarrowPattern | scripts/auditCustomizationGovernance.js:541-552 | the frontmatter pattern `./././**` reaches the guard as `././**`, is rejected, and does not accept every file |
| GlobCatchAll.GuardMissesExactlyWhen | scripts/auditCustomizationGovernance.js:520-552 | a pattern is let through and accepts every file if and only if it normalizes to one that does and is not, stripped once, one of those two |
| GlobCatchAll.GuardMissesCatchAlls | scripts/auditCustomizationGovernance.js:520-552 | four such patterns: `**/**`, `***`, `**?` and one spelt with a backslash |
| GlobSteward.EscapePasses | scripts/auditTraceabilitySteward.js:180-181 | the two escaping passes escape every backslash and dot once and nothing else |
| GlobSteward.MarkPass | scripts/auditTraceabilitySteward.js:182 | the third pass puts a placeholder for each leftmost `**` |
| GlobSteward.StarPass | scripts/auditTraceabilitySteward.js:183 | the fourth pass replaces exactly the remaining stars |
| GlobSteward.PassesAreIntended | scripts/auditTraceabilitySteward.js:178-186 | the five passes produce the intended expression if and only if the pattern nowhere spells out a placeholder, whole or completed by the one a following `**` becomes |
| GlobSteward.StewardIsContained | scripts/auditTraceabilitySteward.js:178-186 | on comparable patterns every path the multi-pass expression accepts is accepted by the one-pass expression |
| GlobSteward.CompilersAgreeExactlyWhen | scripts/auditTraceabilitySteward.js:178-186 | on comparable patterns the two accept the same paths if and only if no `**` has a slash behind it |
| GlobSteward.StewardKeepsSlashes | scripts/auditTraceabilitySteward.js:178-186 | to the steward every slash of the pattern is one of the path |
| CodeSpan.FenceCloses | scripts/auditBranchProtectionSettings.js:1364-1367 | a fence longer than every run of backticks inside is found right behind the content and nowhere before |
| CodeSpan.ReadsThePaddedContent | scripts/auditBranchProtectionSettings.js:1366-1367 | the reader finds exactly the padded content between the fences and leaves the text behind |
| CodeSpan.FenceIsOneLonger | scripts/auditBranchProtectionSettings.js:1364-1365 | the fence is backticks only and the shortest that no run inside can close: a run one shorter occurs inside, one of its own length does not |
| CodeSpan.CodeSpanReadsAsText | scripts/auditBranchProtectionSettings.js:1362-1368 | a printed value reads back as the value with a space for every line ending, of any kind, if and only if it is not empty and that text is not both edged with spaces and more than spaces |
| CodeSpan.CodeSpanReadsBack | scripts/auditBranchProtectionSettings.js:1362-1368 | a printed value reads back as its content if and only if that is not empty, holds no lone carriage return, and is not both edged with spaces and more than spaces |
| CodeSpan.SingleLineReadsBack | scripts/auditBranchProtectionSettings.js:1362-1368 | on a value without line breaks the content is the value itself |
| MirrorLedger.ApplyIsIdempotent | scripts/recordMirrorBenchmark.js:188-288 | on any ledger that is not refused: `changed` is true exactly when the ledger becomes a different one, and applying the same record again returns the same ledger unchanged |
| MirrorLedger.MergeReads | scripts/recordMirrorBenchmark.js:252-287 | one upsert takes the latest-wins reading of a history to that of the longer history |
| MirrorLedger.FoldReads | scripts/recordMirrorBenchmark.js:252-287 | a history of accepted records leaves one run per identity, in order of first appearance, each the latest of its identity, and each actor's latest fingerprint |
| MirrorLedger.RunsAreUnique | scripts/recordMirrorBenchmark.js:259-287 | no two runs share parity key, actor, mode and source revision |
| MirrorLedger.ReadingIsOne | scripts/recordMirrorBenchmark.js:252-287 | the reading determines the ledger |
| MirrorLedger.ActorsAreRegistered | scripts/recordMirrorBenchmark.js:222-257 | every run's actor is registered, and every fingerprint under the reference it derives |
| MirrorLedger.RegisteredForGoodExactlyWhen | scripts/recordMirrorBenchmark.js:227-257 | no registered fingerprint ever changes over a history, between any two of its points, if and only if no two recorded entries share a reference and differ in the fingerprint |
| MirrorLedger.RegisteredForGood | scripts/recordMirrorBenchmark.js:227-257 | as references are derived, that is if and only if no two recorded fingerprints collide under the derivation |
| MirrorLedger.RecordedIsFold | scripts/recordMirrorBenchmark.js:188-288 | after any series of invocations the stored ledger is the fold of the accepted records, the refused ones without a trace |
| MirrorLedger.AcceptedIsCanonical | scripts/recordMirrorBenchmark.js:81-158 | what an accepted record stores is accepted again as it is: normalizing a second time changes nothing |
| MirrorLedger.EntriesExactly | scripts/recordMirrorBenchmark.js:81-251 | the rows and fingerprints some record can leave are exactly those with 64-digit digests, trimmed non-empty names, known mode, outcome and fingerprint classes, plain slashes, non-negative figures and the derived reference |
| MirrorLedger.AcceptedExactlyWhen | scripts/recordMirrorBenchmark.js:81-251 | a record is accepted as an entry if and only if, field by field, the entry is what the record says between its white space, digests in lower case, the path with slashes, with a known mode, outcome and fingerprint classes, non-negative figures, whole counts and the derived reference |
| MirrorLedger.LedgerRefusedExactlyWhen | scripts/recordMirrorBenchmark.js:188-212 | a malformed ledger is refused, and so is one exactly when its schema or version is another, before the record is looked at |
| MirrorLedger.RunsAreExactlyTheLatest | scripts/recordMirrorBenchmark.js:259-287 | a row is among the runs a history leaves if and only if it is the last one recorded for its parity key, actor, mode and source revision, and no two runs share these |
| MirrorLedger.FingerprintIsCanonical | scripts/recordMirrorBenchmark.js:127-158 | the same for the fingerprint alone |
| Prelude.TrimIsUnique | scripts/recordMirrorBenchmark.js:81-158 | what trimming leaves is the one cut of the text with only white space of ECMAScript on both sides and none at its own ends |
| RiskLedger.ClampSubScore | scripts/buildRiskLedger.js:113-118 | the nearest whole number to the value, halves upwards, 0 for what is negative or not finite and 99 for what is larger |
| RiskLedger.MakeEntry | scripts/buildRiskLedger.js:122-139 | every entry scores within the band of its tier, at its base without a sub-score; the two switches are the caller's, and both off for platform proof |
| RiskLedger.BandsAre | scripts/buildRiskLedger.js:55-56 | the band of each tier: 1000, 800, 500, 200, 50 and 0, and 99 more |
| RiskLedger.BandsAreOrdered | scripts/buildRiskLedger.js:55-56 | bands never meet and a higher tier always outscores a lower one, INFO against an unlisted tier excepted |
| RiskLedger.UnlistedTierOverlapsInfo | scripts/buildRiskLedger.js:130-131 | for callers of the exported `makeEntry` that exception is real: an unlisted tier can outscore INFO; no builder of the file emits either tier |
| RiskLedger.BuildCoverageEntries | scripts/buildRiskLedger.js:200-263 | the three loops emit one entry per file and per kept requirement with debt, in order |
| RiskLedger.KeepsTheLargestDebts | scripts/buildRiskLedger.js:237-242 | no requirement cut off by the limit has more debt than a kept one, of equal debts the ids that collate first are kept, nothing else is lost, and the divisor is the largest debt of all |
| RiskLedger.DebtCountsEachUnit | scripts/buildRiskLedger.js:238-239 | the debt grows by one for each missing line, branch and function |
| RiskLedger.CoverageEntriesAreExplained | scripts/buildRiskLedger.js:200-263 | every coverage entry is of a mapped file below the threshold with score 800, of an uncovered file with 500, or of a kept requirement with debt and 500 plus the nearest whole number to 99 times its share of the largest debt |
| RiskLedger.CoverageEntriesAreComplete | scripts/buildRiskLedger.js:200-263 | and each of these has such an entry |
| RiskLedger.ScoreFollowsDebt | scripts/buildRiskLedger.js:241-260 | among requirements with debt the score rises with the debt inside the MEDIUM band, and the largest debt scores its top |
| RiskLedger.CoverageScoresInOrder | scripts/buildRiskLedger.js:208-260 | a mapped file below the threshold outscores every debt, and no debt scores below an uncovered file |
| RiskLedger.CoverageEntriesInBand | scripts/buildRiskLedger.js:200-263 | every entry of the coverage builder scores in the band of its tier and is selectable |
| RiskLedger.TallyBy | scripts/buildRiskLedger.js:459-466 | the counts are the multiplicities of exactly the keys that occur |
| RiskLedger.BuildRiskLedger | scripts/buildRiskLedger.js:470-524 | sorts the entries of all builders, splits them into selectable and parked and tallies; no entry of the ranking stands before one that scores higher, or equal with a dimension earlier in the list of seven, or equal in both with an id that collates first; the next target is one that no open target outranks so; the strict test on it fails if and only if that one is CRITICAL or HIGH |
| RiskLedger.RankingConserves | scripts/buildRiskLedger.js:486-489 | selectable and parked entries together are exactly those put in |
| RiskLedger.NextTargetIsMaximal | scripts/buildRiskLedger.js:443-457 | there is a next target exactly when some entry is selectable; it is one of them, scores and ranks at least as high as all of them, and is no platform-proof entry |
| RiskLedger.NextTargetSpelledOut | scripts/buildRiskLedger.js:443-457 | the order among equal scores written out: verification, requirement-quality, coverage, runtime-fidelity, box-provenance, requirements-drift, platform-proof, and any other last; then the id |
| RiskLedger.RankingIsInOrder | scripts/buildRiskLedger.js:58-68 | the same for any two places of the whole ranking, by the list of dimensions |
| RiskLedger.StrictFailsOnTheNextTarget | scripts/buildRiskLedger.js:526-530 | the strict test fails if and only if the next target itself is CRITICAL or HIGH |
| RiskLedger.StrictFailsOnTheBuiltLedger | scripts/buildRiskLedger.js:470-530 | so it does on the ledger that is built, when the entries of the other builders score in their bands |
| RiskLedger.RankingIsDeterministicExactlyWhen | scripts/buildRiskLedger.js:443-453 | the ranking does not depend on the order the builders emit entries in if and only if no two different entries tie in score, dimension and collated id |
| RiskLedger.RankingIsDeterministic | scripts/buildRiskLedger.js:443-453 | it does not when ids only collate equal for the same entry |
| RiskLedger.TiesFollowTheBuilders | scripts/buildRiskLedger.js:443-453 | two tied entries that differ are ranked in the order they were emitted in |
| Ordering.SortSorts | scripts/buildRiskLedger.js:486 | the sort that stands for `Array.prototype.sort` permutes its input and leaves it in order |
| Ordering.SortIsStable | scripts/agentLaunchGate.js:73-76 | and keeps elements that compare equal in their order |
| PhaseJoin.PhaseAt | scripts/agentLaunchGate.js:70-83 | filtering, sorting and scanning up to the break returns what one walk over the unsorted markers finds |
| PhaseJoin.PhaseIsOfTheLatest | scripts/agentLaunchGate.js:68-83 | that is the phase, or without one the name, of the last marker with the greatest time not after the query, and `unknown` when it has neither or there is none |
| PhaseJoin.ScanIsLatest | scripts/agentLaunchGate.js:73-82 | the stable sort keeps ties in order, so the last of them wins |
| PhaseJoin.BucketContentionByPhase | scripts/agentLaunchGate.js:91-123 | the one-pass bucketing returns one bucket per phase in order of first appearance, and each figure is the number of record indices it stands for: dated `retry` or `advisory-degraded` records of a resource that starts with `agent-launch:`, in that phase and, for the pressures, at or above the threshold, 50 and 0.7 unless overridden; the totals add up to the number of all such indices |
| PhaseJoin.BucketsPush | scripts/agentLaunchGate.js:114-120 | one round of updating the buckets keeps that |
| PhaseJoin.BucketCountsRecords | scripts/agentLaunchGate.js:99-122 | each figure of a bucket, total, gpu, cpu, disk and neither, counts record indices with the condition written out |
| PhaseJoin.CountIsOfIndices | scripts/agentLaunchGate.js:99-122 | counting what the loop looks at is counting record indices, for any condition |
| PhaseJoin.TotalsAddUp | scripts/agentLaunchGate.js:99-122 | the totals add up to the number of launch-contention records |
| PhaseJoin.NeitherIsTheRest | scripts/agentLaunchGate.js:110-119 | in every bucket total less neither is the number of records with some pressure, and bounds each pressure |
| BoardSync.AuthorizeWrite | scripts/controlPlaneWrite.js:81-100 | authorized exactly when the path and the tier are switched on and, for any tier but board sync, the approver is on the list and verified; the reason given names the first of these that fails |
| BoardSync.PlanBoardSync | scripts/controlPlaneWrite.js:108-126 | the loop's plan, item by item |
| BoardSync.PlanMirrors | scripts/controlPlaneWrite.js:108-126 | a plan only ever sets Status to Done or Evidence State to Proven |
| BoardSync.PlanEmptyExactlyWhen | scripts/controlPlaneWrite.js:102-126 | there is nothing to plan if and only if every merged item is Done and Proven |
| BoardSync.PlanOnlyMerged | scripts/controlPlaneWrite.js:102-126 | every planned update is of an item whose pull request is merged |
| BoardSync.OnlyMergedItemsChange | scripts/controlPlaneWrite.js:102-126 | no prefix of the plan touches an item that shares its id with no merged item |
| BoardSync.PlannedResolves | scripts/controlPlaneWrite.js:392-416 | a planned update resolves, to an edit of its item, if and only if its item id is not empty |
| BoardSync.EditDoesWhatTheUpdateSays | scripts/controlPlaneWrite.js:34-43 | the edit an update resolves to, read by its project, field and option ids alone, sets on the item it names the field it names to the value it names, and changes nothing else |
| BoardSync.EditIsTheUpdate | scripts/controlPlaneWrite.js:392-416 | so on a whole board the edit has the effect of the update; runs change the board by the edit |
| BoardSync.EmptyIdIsPlannedButNotResolved | scripts/controlPlaneWrite.js:112-114 | the planner lets an empty id through |
| BoardSync.ReplanFilters | scripts/controlPlaneWrite.js:108-126 | after an update the plan is what it was, less every update of that item and field |
| BoardSync.ReplanAll | scripts/controlPlaneWrite.js:108-126 | the same after any number of updates, on any board |
| BoardSync.ReplanExactlyWhen | scripts/controlPlaneWrite.js:108-126 | re-planning after any prefix yields exactly the remaining suffix if and only if the plan holds one update per item and field |
| BoardSync.DistinctIdsPlanOneEach | scripts/controlPlaneWrite.js:108-126 | items with different ids make such a plan |
| BoardSync.PlanMergeQueue | scripts/controlPlaneWrite.js:254-277 | the loop over a set of seen keys keeps the first appearance of every well-formed action |
| BoardSync.QueuePlanIsEachOnce | scripts/controlPlaneWrite.js:247-277 | so every well-formed action is planned exactly once and no other |
| BoardSyncRuns.ControlPlane.ApplyPlanned | scripts/controlPlaneWrite.js:145-159 | whatever throws and wherever, the board has the effect of a prefix of the plan and the log mirrors that prefix, at most one behind |
| BoardSyncRuns.ControlPlane.RunBoardSync | scripts/controlPlaneWrite.js:132-161 | nothing changes unless the gate authorizes and there is an executor; then as above, completed exactly when the whole plan was logged |
| BoardSyncRuns.ControlPlane.RunBoardSyncCli | scripts/controlPlaneWrite.js:805-834 | one invocation on the board as it is: refused with the gate's reason, a dry run that only counts the plan without `--apply`, and otherwise completed exactly when the whole plan was logged |
| BoardSyncRuns.InvokeStaysOnCourse | scripts/controlPlaneWrite.js:805-834 | an invocation, interrupted anywhere, goes on exactly where the earlier ones stopped |
| BoardSyncRuns.InterruptedRunsConverge | scripts/controlPlaneWrite.js:132-161 | the updates applied over any series of interrupted runs concatenate to a prefix of the first plan, and the rest of it is what is left to plan |
| BoardSyncRuns.CompletedRunLeavesNothing | scripts/controlPlaneWrite.js:132-161 | a run without faults leaves nothing to plan and every merged item Done and Proven, on any board |
| BoardSyncRuns.LogMirrorsWrites | scripts/controlPlaneWrite.js:128-161 | over any series of invocations nothing is written but by authorized ones with `--apply`, every write resolved, and the log holds the writes in order less one for each run that stopped between an edit and its entry |
| BoardSyncRuns.EmptyIdBlocks | scripts/controlPlaneWrite.js:392-395 | on any board no series of runs applies an update with an empty id, nor more updates, or others, than those planned before it |

## Left out

- `resolveToolsetFiles`, gzip, SHA-256 and the release manifest: file discovery and library code; the model stops at the uncompressed image and keeps hashes uninterpreted.
- UTF-8 and UTF-16: archive paths are byte sequences; elsewhere text is a sequence of Unicode characters, so the order on canonical lines is by character and not by UTF-16 unit, and the glob classes take one character where the source takes one unit.
- Strings with NULs in file names are not representable on the host; the archive theorem states the condition instead of assuming it.
- LeaseMachine: one resource at a time; that resources do not meet is proved for undisturbed calls only (`Lease.GateDir.AcquireLease`). owner.json is written and removed in one step each, and removals that fail midway in any other way than a crash or a new file appearing are not modelled.
- LeaseMachine.Exclusion: releases with `force` are outside the theorem; `Lease.RunSafe` covers them for undisturbed calls.
- Lease.RunSafe: calls are atomic here; the same with free interleaving is false (`LeaseMachine.RacingReclaim`).
- `listLeases`, `describeLease`, `runLaunchRelease`, identities and gate directories from the environment: reporting and plumbing. A time of exactly zero passed as `now`, which the source replaces by the clock, and fractional attempt limits are not modelled.
- LeaseClients.CliAcquire: the answers of the gate are a parameter; the token file and the ledger file become the result. Writing them is best effort in the source.
- The header mapping of `checkDefinitionOfDone.js` (`parseCsvRows`), which splits on line breaks first; only its `parseCsvLine` is modelled.
- A header of `__proto__`, and other names JavaScript objects treat specially.
- Regex: the grammar holds what the compilers emit; quantifier braces, classes other than `[^/]` and look-around are refused by the parser, so `GlobSteward` compares the compilers on patterns whose syntax characters are only `.`, `*` and backslashes, as the steward leaves the others unescaped.
- GlobSteward.StewardIsContained: patterns that the one-pass compiler would trim, strip or normalize are excluded, as the two then start from different text.
- CodeSpan: the reader starts at the opening fence; block structure, and backticks in front of the span, are the caller's.
- MirrorLedger: text-to-number conversion (a value is a finite number or absent), the key order of `actors`, extra keys and key order of ledgers written by other programs, JSON text and files. Error texts are reduced to the field at fault.
- RiskLedger: the verification, standards, runtime-fidelity, box-provenance and platform-proof builders, whose entries are parameters of `BuildRiskLedger`; titles and evidence texts; negative entry limits.
- PhaseJoin: the disk classifier is a parameter; thresholds that are not finite count as absent; `launchResource` and the ledger files are left out.
- BoardSync: the reads that join items with verified closures (`controlPlaneBoardSync.js`); which pull requests are merged does not change between runs, and nobody else edits the board.
- BoardSyncRuns: an edit either takes effect or not, whether or not its command reports an error; a failing log append writes nothing.
- `planAnnotate`, `planCreateWork`, their runners and executors: the same loop shape over other payloads. `loadWriteConfig` and all command-line parsing, subprocess calls and rendering.
