# Verification of the Omnifrons storage and request protocols

This project models the parts of Omnifrons whose correctness is about every input,
every run or every interleaving, and proves what they promise. `dafny verify
dfyconfig.toml` checks all of it.

| files | what they model |
|---|---|
| `Basics`, `Utf8`, `Lines`, `TextFiles`, `Decimal`, `Sorting` | bytes, UTF-8, lines, decimal text, stable sorting |
| `CatalogRecords`, `CatalogReplay`, `CatalogRepair`, `CatalogRepairLaws`, `CatalogStore`, `CatalogRuns`, `CatalogLineLaws`, `DisplayNames` | the append-only catalog `catalog.jsonl`, its strict reader, the line classifier, the repair, and what is decided about each line |
| `ScanWalk`, `ScanReach`, `ScanBounds`, `ScanMeaning`, `WrongRootScanner`, `ScanLaws`, `ScanCoverage` | the wrong-root scan: a bounded depth-first loop over a stack of frames, exactly when its report is complete, and what it holds when it is and when it is not |
| `DefinitionWriter`, `DefinitionWriterLaws`, `DefinitionWriterRuns`, `DefinitionWriterErrors` | the check, temporary file, re-check, publish and read-back protocol of a definition write |
| `CivilDate`, `Timestamp`, `HarnessLog`, `RunLogs` | the harness log: its date, its byte bound, and pruning by numeric keys |
| `QuarantineMove`, `QuarantineLaws` | the link, check, unlink move into the quarantine, with undo |
| `OutboxState`, `OutboxRuns` | the run table and its shared cap on held handles |
| `ApplyRecordNames`, `ApplyRecords`, `ApplyRecordStore`, `ApplyListing` | apply records: reservation, rename, crashes, and the listing |
| `ApprovalLog`, `ApprovalLaws` | the approval log and its replay |
| `DefinitionSection`, `DefinitionSectionRuns`, `DefinitionSectionAnswers` | the definition panel's handlers: refs, one generation counter, answers in any order |

## How to read it

Code that changes something step by step is a class or a method proved against a
specification function of the same step; what the source promises is then proved
about that function. Protocols that others can interfere with are state machines
over their atomic steps, with the interference as actions or parameters, and the
main results are about every run of them. JSON, hashing and the file system's
answers are parameters.

## Where the code and its documentation differ

The model follows the code. Each of these is a proved statement with its exact
condition.

- `DisplayName::sanitize` documents a limit of 255 bytes but adds an underscore
  after cutting, so a reserved stem in a name that fills the limit gives 256 bytes,
  and sanitizing again gives another name (`SanitizedLength`, `SanitizeTwiceIff`).
  Adding such an alias appends a line on every call (`DisplayNameTwiceSameBytesIff`).
- `register` accepts a record whose two publication ids differ and writes a line
  that makes the whole catalog corrupt (`RegisteredReads`, `DisagreeingIdsCorrupt`).
- A repair whose copy fails while it is being written leaves the partial copy
  behind (`WriteRepairCopy`, `Repair`).
- The definition writer's `Io` is documented to mean that nothing was published; it
  is also what a failing read-back reports (`IoAfterPublishingIff`,
  `IoMayFollowPublishing`).
- The definition writer's comment on its no-follow open says that a special file is
  caught by the caller's check (`fs_definition_writer.rs:184`), but nothing looks at
  what was opened: a special file swapped in after the `lstat` is hashed, so a replace
  can pass its second check and rename over it, and a read-back can answer `Ok` while
  the name holds it. The promises stand exactly when what was opened is a regular file
  (`ReplacedIsWhatWasChecked`, `OkReadsTheName`, `ReplacesASpecialFile`,
  `OkOverASpecialFile`).
- A replaced file is documented to keep its own bits, or those it shares with the
  source. The last `lstat` before publishing counts as no file when it fails
  (`fs_definition_writer.rs:565-573`), and the write goes on: it publishes all of the
  source's bits, or the bits of its first check. The promise stands exactly when that
  `lstat` goes through or the bits agree anyway (`PublishedAsPlanned`,
  `ReplacedIsWhatWasChecked`, `FailedStatWidens`, `OwnerOnlyBecomesReadable`,
  `FailedStatRestores`).
- The quarantine move treats a failing stat as another file, so it can report
  `Renamed` and leave the old name in place (`RenamedKeepsOldNameIff`,
  `BothNamesLeft`).
- An apply record from late in the year 5138 on (10^20 nanoseconds) is written under
  a name the listing then calls corrupt (`NameReadsBackIff`, `ListSucceedsIff`,
  `LateRecordCorrupts`).
- An approval for a path that is not Unicode is stored and never found again
  (`RecordedIsFoundIff`, `NonTextPathIsNotFound`).
- The definition panel's comment on its apply says that only a stale plan is dropped and
  that any other failure keeps the preview for a retry
  (`renderer/src/DefinitionSection.tsx:922-928`); the handler keeps it exactly on a
  refusal and on `run-active` and drops it on every other failure (`ApplyAnswered`).

One limit the documentation does name has its exact condition too: a revocation logged
before its approval has no effect on it (`RevocationHoldsIff`).

## Model

| member | source | states |
|---|---|---|
| `CatalogRepair.ReadsIffAllKept` | crates/omnifrons-adapters/src/jsonl_catalog_store.rs:160-313 | over every byte string, the strict reader accepts the file exactly when the repair's line classifier keeps every line, although one splits text and matches publication ids and the other splits bytes and matches catalog ids; and the records read then carry the ids the classifier counted, in order |
| `CatalogRepair.TextLines` | crates/omnifrons-adapters/src/jsonl_catalog_store.rs:160-240 | splitting the bytes after each line feed and decoding line by line agrees with decoding the whole file and splitting the text, for every byte string, and one succeeds exactly when the other does |
| `CatalogRepair.TrimIsChomp` | crates/omnifrons-adapters/src/jsonl_catalog_store.rs:249-262 | what the classifier strips from a raw line and what the reader strips from the decoded line differ by at most one trailing carriage return, and are readable together |
| `CatalogRepair.JudgeMatchesApply` | crates/omnifrons-adapters/src/jsonl_catalog_store.rs:249-313 | one line: the classifier keeps it exactly when the reader would accept it after the same lines before, whatever those were, and both then remember the same ids |
| `CatalogRepair.Classify` | crates/omnifrons-adapters/src/jsonl_catalog_store.rs:232-241 | the loop pairs every line with its number and its decision given the lines before it, and counts the registrations kept |
| `CatalogRepair.Decide` | crates/omnifrons-adapters/src/jsonl_catalog_store.rs:249-313 | the branching on one raw line (not text, blank, unparsable, wrong schema, incoherent ids, repeated identity, dangling alias) reaches exactly the decision and list of seen ids of the rule, which `FileByTheRule` states without it |
| `CatalogLineLaws.FileByTheRule` | crates/omnifrons-adapters/src/jsonl_catalog_store.rs:249-313 | over every file, each line's decision read off its raw bytes and the lines before it: kept exactly when blank, when its record converts and no earlier line registers that publication, or when it is an alias whose id decodes and an earlier line registers; dropped as a repeated record, with its publication, exactly when an earlier line first registered that same catalog id; dropped as a dangling alias, with its id if it decodes, exactly when no earlier line registers it; refused as crossing asset roots exactly when an earlier line registers the publication under another; refused as a mismatch exactly when it is a schema-1 record that does not convert and whose catalog id as written is not its asset root and publication id; and refused as unparsable exactly when it is none of these |
| `CatalogLineLaws.LineByTheRule` | crates/omnifrons-adapters/src/jsonl_catalog_store.rs:249-313 | the same of one line judged after any others, and what is then seen is what those lines and it register |
| `CatalogRepair.KeptBytes` | crates/omnifrons-adapters/src/jsonl_catalog_store.rs:414-426 | the bytes a repair writes are the kept lines joined, plus one line feed exactly when they do not end in one |
| `CatalogReplay.ReplayStr` | crates/omnifrons-adapters/src/jsonl_catalog_store.rs:160-202 | the reader's loop yields the fold of its lines, and `Corrupt` exactly when one of them has no effect defined |
| `CatalogReplay.ReplayLinesSound` | crates/omnifrons-adapters/src/jsonl_catalog_store.rs:160-202 | whatever replays has pairwise distinct publication ids and records whose two ids agree |
| `CatalogReplay.WithNameOnly` | crates/omnifrons-adapters/src/jsonl_catalog_store.rs:181-200 | an alias changes the first record of its publication only, and of that record only the names, where a new name comes last |
| `CatalogRepairLaws.RepairedReads` | crates/omnifrons-adapters/src/jsonl_catalog_store.rs:414-426 | for every byte string, the repaired bytes read, hold exactly the registrations the plan counted in the same order, and need no further repair |
| `CatalogRepairLaws.RepairIdempotent` | crates/omnifrons-adapters/src/jsonl_catalog_store.rs:414-426 | repairing repaired bytes changes nothing |
| `CatalogRepairLaws.RepairedLines` | crates/omnifrons-adapters/src/jsonl_catalog_store.rs:384-426 | the lines of the repaired file are the kept lines of the original in order and byte for byte, but for one line feed at the very end; the file is empty or ends its last line |
| `CatalogRepairLaws.RegistrationSurvives` | crates/omnifrons-adapters/src/jsonl_catalog_store.rs:249-313 | the identity a record line registers is registered in the end exactly when that line was not refused for a second asset root |
| `CatalogRepairLaws.NothingDeleted` | crates/omnifrons-adapters/src/jsonl_catalog_store.rs:249-313 | with nothing refused, every identity any record line registers is still registered after the repair, and its first line is kept |
| `CatalogRepairLaws.DeletesNothingIff` | crates/omnifrons-adapters/src/jsonl_catalog_store.rs:536-539 | writing the kept lines loses no registration exactly when no line is refused for crossing asset roots, which is why `repair` stops on a refusal |
| `CatalogRecords.RecordRoundTrip` | crates/omnifrons-adapters/src/catalog_record_dto.rs:170-309 | a record written and converted back is itself with sanitized names when its two publication ids agree, and refused when they do not |
| `CatalogRecords.ConvertsIff` | crates/omnifrons-adapters/src/catalog_record_dto.rs:170-309 | a line's record converts to a given record exactly when that record is well typed and coherent, the line is its own but for the spelling of the publication id and for names, and those the sanitizer turns into its names |
| `CatalogStore.JsonlCatalogStore.AppendLine` | crates/omnifrons-adapters/src/jsonl_catalog_store.rs:131-146 | a completed append adds one whole line; one that cannot open leaves the file; one that fails half way leaves a prefix of the line |
| `CatalogStore.JsonlCatalogStore.Register` | crates/omnifrons-adapters/src/jsonl_catalog_store.rs:575-587 | reads first, refuses a publication already there with the file unchanged, and otherwise appends exactly one record line |
| `CatalogStore.JsonlCatalogStore.AddAlias` | crates/omnifrons-adapters/src/jsonl_catalog_store.rs:589-608 | refuses an unknown publication, appends nothing for a name already listed, and otherwise exactly one alias line |
| `CatalogStore.PlanFor` | crates/omnifrons-adapters/src/jsonl_catalog_store.rs:382-404 | the plan lists every dropped and every refused line with its number, and counts the registrations kept |
| `CatalogLineLaws.PlanLists` | crates/omnifrons-adapters/src/jsonl_catalog_store.rs:378-412 | a plan lists each dropped line and each refused one once, by its one-based 32-bit number and with what was decided about it, the first refusal first, and counts the records of the catalog a repair would leave |
| `CatalogLineLaws.RefusedIff` | crates/omnifrons-adapters/src/jsonl_catalog_store.rs:536-539 | a plan has a refusal exactly when the file holds a line that is mismatched, unparsable or crosses asset roots, and its first refusal is what is wrong with the first such line |
| `CatalogLineLaws.StoppedRepairChangesNothing` | crates/omnifrons-adapters/src/jsonl_catalog_store.rs:521-539 | so a repair of any file with such a line, a record whose own ids disagree among them, never applies, whatever digest it was asked for, and leaves file and copies as they were |
| `CatalogLineLaws.ReadFailsIff` | crates/omnifrons-adapters/src/jsonl_catalog_store.rs:147-202 | the reader answers `Unreadable` exactly for a file that is not text, and `Corrupt` exactly for text with a line the rule above does not keep |
| `CatalogLineLaws.CallsDecided` | crates/omnifrons-adapters/src/jsonl_catalog_store.rs:575-608 | a registration is a duplicate exactly when a listed record has its publication id, and otherwise appends its record of schema 1; an alias is unknown exactly when none has, appends nothing exactly when the first record that has already lists the name, and otherwise appends the alias with its time; a catalog that does not read takes neither |
| `CatalogStore.NothingToDoIffReads` | crates/omnifrons-adapters/src/jsonl_catalog_store.rs:536-542 | a plan has neither drops nor refusals exactly when the file already reads |
| `CatalogStore.JsonlCatalogStore.PrepareRepair` | crates/omnifrons-adapters/src/jsonl_catalog_store.rs:521-550 | succeeds exactly when the read goes through, the digest is the one asked for, and the plan drops lines and refuses none; its errors come in the order the code raises them, and the guard against an unreadable result never fires |
| `CatalogStore.JsonlCatalogStore.ReplaceBytes` | crates/omnifrons-adapters/src/jsonl_catalog_store.rs:470-511 | goes through exactly when the staged bytes were written, the bytes re-read last are the expected ones and the rename succeeds; `Changed` exactly when they are not; no path leaves a staged file, and an error leaves the catalog to whoever else wrote it |
| `CatalogStore.JsonlCatalogStore.WriteRepairCopy` | crates/omnifrons-adapters/src/jsonl_catalog_store.rs:436-461 | created exclusively and exact on success; an error leaves a copy only when the copy's own write failed after it was created |
| `CatalogStore.JsonlCatalogStore.Repair` | crates/omnifrons-adapters/src/jsonl_catalog_store.rs:521-567 | succeeds exactly when the plan of the bytes bound to the digest drops lines and refuses none, the copy is written whole under a free name and the rewrite goes through; it then leaves a copy of the exact original and the repaired bytes, which read; when the plan refuses a line, which `RefusedIff` says exactly of which files, or drops none, it changes nothing; one that fails later leaves the catalog as it was or as someone else left it, no staged file and no copy but a torn one; which errors the first read and the plan give |
| `CatalogRuns.AppendedReads` | crates/omnifrons-adapters/src/jsonl_catalog_store.rs:131-202 | one line appended to a file that ends its lines reads as that line applied to what the file said |
| `CatalogRuns.RegisteredReads` | crates/omnifrons-adapters/src/jsonl_catalog_store.rs:575-587 | a registered record reads back with its names sanitized exactly when its two publication ids agree; otherwise the line just written makes the whole catalog corrupt |
| `CatalogRuns.DisagreeingIdsCorrupt` | crates/omnifrons-adapters/src/jsonl_catalog_store.rs:575-587 | such a record, in an empty project: the registration succeeds, and the catalog then neither reads nor takes another |
| `CatalogRuns.EveryRunReads` | crates/omnifrons-adapters/src/jsonl_catalog_store.rs:521-608 | over every run of completed registrations, aliases and repairs from any catalog that reads and ends its lines, or from none, the file ends its lines, reads, equals the catalog the calls describe with distinct ids, and leaves a repair nothing to do |
| `CatalogRuns.EveryRunRecovers` | crates/omnifrons-adapters/src/jsonl_catalog_store.rs:521-608 | over every run of such calls from any file that does not read: nothing changes until the first repair with something to drop and nothing to refuse; that one keeps the original bytes for good, and from then on the file reads and is what the later calls describe |
| `CatalogRuns.RunCall` | crates/omnifrons-adapters/src/jsonl_catalog_store.rs:521-608 | one undisturbed call on the store leaves exactly the file and the copies those runs are made of |
| `CatalogRuns.RunCalls` | crates/omnifrons-adapters/src/jsonl_catalog_store.rs:521-608 | and so does any sequence of them |
| `CatalogRuns.RepairedTakesAppends` | crates/omnifrons-adapters/src/jsonl_catalog_store.rs:384-426 | after the repair of any bytes the next registration lands as a line of its own |
| `CatalogRuns.AliasTwiceSameCatalog` | crates/omnifrons-adapters/src/jsonl_catalog_store.rs:589-608 | the same alias added twice leaves the catalog as added once |
| `CatalogRuns.AliasTwiceSameBytesIff` | crates/omnifrons-adapters/src/jsonl_catalog_store.rs:589-608 | the second call appends nothing exactly when the name is one the sanitizer leaves alone; any other name grows the file on every call |
| `CatalogRuns.DisplayNameTwiceSameBytesIff` | crates/omnifrons-adapters/src/jsonl_catalog_store.rs:589-608 | for names that come out of the sanitizer, that is exactly the names within the byte cap |
| `DisplayNames.SanitizedLength` | crates/omnifrons-domain/src/publication.rs:360-407 | a sanitized name exceeds the 255-byte limit it documents exactly when the shortened name fills the limit and its stem is a reserved device name |
| `DisplayNames.UnchangedIff` | crates/omnifrons-domain/src/publication.rs:360-407 | a sanitized name is never empty, has no separator, control or bidirectional control, no blank before it and no dot or blank after it, and no reserved device as its stem; and a name is left as it is exactly when it is such a name of at most 255 bytes |
| `DisplayNames.ComponentsJoined` | crates/omnifrons-domain/src/publication.rs:360-407 | two path components are joined by an underscore, empty and dot components left out |
| `DisplayNames.CutIsLongest` | crates/omnifrons-domain/src/publication.rs:360-407 | what the byte cap leaves is the longest prefix of whole characters that fits it |
| `DisplayNames.SanitizeTwiceIff` | crates/omnifrons-domain/src/publication.rs:360-407 | sanitizing twice equals sanitizing once exactly when the sanitized name is within the limit |
| `DisplayNames.SanitizeNotIdempotent` | crates/omnifrons-domain/src/publication.rs:360-407 | a name of 255 bytes for which sanitizing twice differs from sanitizing once |
| `WrongRootScanner.Scan` | crates/omnifrons-adapters/src/fs_wrong_root_scanner.rs:351-419 | fails exactly when the root cannot be opened and listed; otherwise the explicit-stack loop ends with the report of the walk bounded in depth and names and stopped at 20,000 entries, whose findings and counters `FindingsExactly`, `CountersExactly` and `PartialFindings` state by looking paths up; its trace is every event of that walk in order, and the most frames ever open are one more than the deepest directory entered |
| `ScanLaws.CompleteIff` | crates/omnifrons-adapters/src/fs_wrong_root_scanner.rs:351-419 | a report is not truncated exactly when the root lists at most 20,000 names, nothing that can be reached by name runs out of descriptors, every reached directory but the outbox is at most 32 levels deep and lists at most 20,000 names, and the unbounded walk meets at most 20,000 entries beside the outbox |
| `ScanLaws.CompleteIsWhole` | crates/omnifrons-adapters/src/fs_wrong_root_scanner.rs:351-419 | a report that is not truncated is that of the unbounded name-ordered walk, event for event |
| `ScanLaws.TraceIsReal` | crates/omnifrons-adapters/src/fs_wrong_root_scanner.rs:376-418 | any report, truncated or not, is of entries of the unbounded walk with their own fates, in strictly increasing path order, so none is met twice; only cuts are the scan's own |
| `ScanLaws.TraceIsBounded` | crates/omnifrons-adapters/src/fs_wrong_root_scanner.rs:386-395 | at most 20,000 entries are examined, plus the one a scan stops at and the outbox, met once |
| `ScanLaws.FramesAreBounded` | crates/omnifrons-adapters/src/fs_wrong_root_scanner.rs:517-525 | at most 33 directories are ever open at once |
| `ScanLaws.ReportCounts` | crates/omnifrons-adapters/src/fs_wrong_root_scanner.rs:376-418 | `scanned`, `excluded` and `unreadable` never saturate and, with the directories entered and the cuts, add up to the names drawn; `truncated` is set exactly when the root's listing or an entered directory's was cut short or some name was cut |
| `ScanLaws.FindingsExactly` | crates/omnifrons-adapters/src/fs_wrong_root_scanner.rs:351-419 | every finding of any report is a path that, looked up name by name through directories that open and list, lie outside the outbox and are no `.git` holding `HEAD` and `objects`, ends at a regular file whose head is read and whose content digests, all of whose names are text, outside the outbox, of a misplaced class and with the verdict `Misplaced`; each is there once, in path order; and a report that is not truncated has a finding for every such path |
| `ScanLaws.CountersExactly` | crates/omnifrons-adapters/src/fs_wrong_root_scanner.rs:376-418 | `scanned` counts exactly the files found misplaced or left in place, `excluded` what the outbox, link and repository rules pass over, `unreadable` what has no stat, is no file or directory, cannot be opened, listed or read, or could not be named in a finding: each path once, every one met of that kind, and in a report that is not truncated all of them that a path leads to |
| `ScanMeaning.FateIsItsKind` | crates/omnifrons-adapters/src/fs_wrong_root_scanner.rs:376-418 | an entry meets a fate of the unbounded walk exactly when it is of that kind, the kinds written out over the entry, the outbox and the policy's two answers |
| `ScanMeaning.FateAtIsKind` | crates/omnifrons-adapters/src/fs_wrong_root_scanner.rs:376-418 | and so does every entry a path leads to |
| `ScanCoverage.TraceCovers` | crates/omnifrons-adapters/src/fs_wrong_root_scanner.rs:376-418 | any scan, its report complete or not, meets every entry that a path leads to through at most 32 levels of open directories, each among the first 20,000 names of the one above, with the fate of its kind, unless the scan met 20,000 entries outside the outbox and stopped at that path or before it; and it meets nothing else but where it stopped |
| `ScanCoverage.PartialFindings` | crates/omnifrons-adapters/src/fs_wrong_root_scanner.rs:376-418 | so a truncated report misses a misplaced file only when it lies too deep, past the 20,000th name of a directory, in one that does not open, or after the 20,000th entry |
| `WrongRootScanner.OpenChild` | crates/omnifrons-adapters/src/fs_wrong_root_scanner.rs:517-575 | a directory is entered exactly when the depth bound, the open, the `.git` rule and the listing all allow it, and otherwise lands in the one counter or flag of the reason that comes first |
| `WrongRootScanner.ExamineFile` | crates/omnifrons-adapters/src/fs_wrong_root_scanner.rs:591-622 | each file lands in the counter, the flag or the findings of its fate, in the order the code tests; which file meets which fate is `FateIsItsKind` |
| `WrongRootScanner.SortedNames` | crates/omnifrons-adapters/src/fs_wrong_root_scanner.rs:145-189 | collects at most the bounded number of names, sorted, and says whether that is all of them |
| `ScanReach.WalkMeets` | crates/omnifrons-adapters/src/fs_wrong_root_scanner.rs:376-417 | the recursive walk meets a path with a fate exactly when looking that path up name by name gives that fate |
| `ScanReach.WalkIncreasing` | crates/omnifrons-adapters/src/fs_wrong_root_scanner.rs:376-417 | the walk meets strictly increasing paths, so no path twice |
| `DefinitionWriterLaws.EveryRunIsSafe` | crates/omnifrons-adapters/src/fs_definition_writer.rs:624-667 | over every interleaving of any number of writes with each other and with outside edits, each step atomic: every write's promise, the tidiness of the directory and the wholeness of what was published stand at every moment |
| `DefinitionWriterLaws.PublishingPutsWholeFile` | crates/omnifrons-adapters/src/fs_definition_writer.rs:585-609 | the one step that changes the name puts there the write's own complete bytes with the bits it decided on, and for a create only when the name is free |
| `DefinitionWriterLaws.OtherStepsTouchNothing` | crates/omnifrons-adapters/src/fs_definition_writer.rs:624-667 | every other step, every failing one included, leaves the name and every file that is not the write's own temporary file exactly as they were |
| `DefinitionWriterLaws.OtherStepsKeepOtherWrites` | crates/omnifrons-adapters/src/fs_definition_writer.rs:624-667 | nor does it touch another write or its temporary name |
| `DefinitionWriterLaws.CreatesExcludeEachOther` | crates/omnifrons-adapters/src/fs_definition_writer.rs:585-609 | however many creates race for a name, at most one goes through, and one more for every time somebody empties the name while it is taken |
| `DefinitionWriterLaws.PublishedAsPlanned` | crates/omnifrons-adapters/src/fs_definition_writer.rs:536-583 | in every run, what a published write replaced was nothing for a create, whose bits are then exactly the source's as last read or the default ones; for a replace, unless the name changed after the second check, it matched the expected fingerprint exactly when what that check opened was a regular file, and the bits published over that file are exactly those it shares with the source, or its own under `Keep`, when the last `lstat` went through, and otherwise all of the source's, or those the first check read: so no bit is added, or none changed, exactly when it went through or the two agree anyway |
| `DefinitionWriterLaws.ReplacedIsWhatWasChecked` | crates/omnifrons-adapters/src/fs_definition_writer.rs:536-583 | the same read off the name at the publishing step itself: unless someone else touched the name since the second check, its content is the expected one, in a regular file, exactly when that check opened a regular file, and the bits published over it are exactly as stated there; unless the source was changed since it was read again, those are the source's bits meant |
| `DefinitionWriterLaws.RacedOnlyByOthers` | crates/omnifrons-adapters/src/fs_definition_writer.rs:575-609 | the exception to that applies only when someone else's edit or publish landed between the second check and this write's publishing step |
| `DefinitionWriterLaws.OkMeansWritten` | crates/omnifrons-adapters/src/fs_definition_writer.rs:612-621 | with an injective digest, `Ok` means the write was published and the name was then read back holding exactly the requested bytes |
| `DefinitionWriterLaws.OkReadsTheName` | crates/omnifrons-adapters/src/fs_definition_writer.rs:612-621 | the step that decides on `Ok` does so on exactly the requested bytes read through the name, and the name then holds them exactly when what it opened was a regular file |
| `DefinitionWriterLaws.FinishedIsClean` | crates/omnifrons-adapters/src/fs_definition_writer.rs:624-667 | a finished write leaves no temporary name, and among errors other than `Io` exactly `ReadBackMismatch` comes after publishing |
| `DefinitionWriterLaws.IoAfterPublishingIff` | crates/omnifrons-adapters/src/fs_definition_writer.rs:612-621 | a write that ends with `Io` was published exactly when what failed was the inspection that reads the file back |
| `DefinitionWriterErrors.NotWritableIff` | crates/omnifrons-adapters/src/fs_definition_writer.rs:536-556 | a write ends its first step with `NotWritable` exactly when what it expects is neither nothing nor a file's digest |
| `DefinitionWriterErrors.CheckRefuses` | crates/omnifrons-adapters/src/fs_definition_writer.rs:536-556 | what either check's `lstat` makes of the name: a create is `Stale` beside a link, a directory or a special file, a replace is `Stale` beside nothing and `NotRegular` beside any of those, and a file is opened next |
| `DefinitionWriterErrors.OpenRefuses` | crates/omnifrons-adapters/src/fs_definition_writer.rs:339-366 | what either check makes of what it then opens: `Stale` exactly when it gives bytes other than those expected, or any to a create, or nothing to a replace; `Io` for a directory; otherwise `NotRegular` to a replace and `Stale` to a create |
| `DefinitionWriterErrors.SourceRefuses` | crates/omnifrons-adapters/src/fs_definition_writer.rs:395-435 | `SourceUnavailable` exactly when the policy needs the source and it cannot be read |
| `DefinitionWriterErrors.PublishRefuses` | crates/omnifrons-adapters/src/fs_definition_writer.rs:585-609 | the publishing step of a create is `Stale` exactly when the name is taken by then, by anything, and `ExclusiveCreateRefused` exactly when it is free and the system will not link; a replace fails with `Io` exactly when the rename does, as over a directory; with no error it publishes |
| `DefinitionWriterErrors.ReadBackRefuses` | crates/omnifrons-adapters/src/fs_definition_writer.rs:612-621 | the read-back is a mismatch exactly when the name holds no file at its `lstat`, or what opens gives other bytes than those requested; it is `Io` exactly when the system does not answer or a directory was opened |
| `DefinitionWriterErrors.StepFails` | crates/omnifrons-adapters/src/fs_definition_writer.rs:624-667 | creating, filling and setting the bits of the temporary file fail with `Io`, exactly when the system does not answer |
| `DefinitionWriterErrors.TempIsGuarded` | crates/omnifrons-adapters/src/fs_definition_writer.rs:461-471 | until the decided bits are set the temporary file is empty and, when a policy decides, its owner's only; while it is filled it has exactly the decided bits |
| `DefinitionWriterRuns.IoMayFollowPublishing` | crates/omnifrons-app/src/definition_writer.rs:162-168 | so the documented promise of `Io`, that nothing was published, fails: a run from an empty directory ends with the file in place and `Io` |
| `DefinitionWriterRuns.AloneEndsOk` | crates/omnifrons-adapters/src/fs_definition_writer.rs:624-667 | from any world where the name is as the request expects and the bits its policy needs can be read, the write alone ends with `Ok`, for a create and for a replace: the name holds its bytes with the bits the policy prescribes, no other file has changed and the temporary name is gone |
| `DefinitionWriterRuns.OkOverASpecialFile` | crates/omnifrons-adapters/src/fs_definition_writer.rs:339-366 | a run from an empty directory that ends with `Ok` and a special file at the name, swapped in between the `lstat` and the open of the read-back and streaming the same bytes |
| `DefinitionWriterRuns.ReplacesASpecialFile` | crates/omnifrons-adapters/src/fs_definition_writer.rs:339-366 | a run in which a replace renames over a special file that was swapped in the same way during its second check, with nobody touching the name after that |
| `DefinitionWriterRuns.FailedStatWidens` | crates/omnifrons-adapters/src/fs_definition_writer.rs:558-581 | for every target and source: with nobody else acting and the last `lstat` failing, a `NoWiderThan` replace ends with `Ok` and the file has all of the source's bits, whatever it had before |
| `DefinitionWriterRuns.OwnerOnlyBecomesReadable` | crates/omnifrons-app/src/definition_writer.rs:68-72 | so a file of mode 0600 replaced from a source of mode 0644 ends with mode 0644 |
| `DefinitionWriterRuns.FailedStatRestores` | crates/omnifrons-adapters/src/fs_definition_writer.rs:558-581 | for every target: with its bits changed after the first check and the last `lstat` failing, a `Keep` replace ends with `Ok` and the bits of the first check |
| `CivilDate.CivilIsCorrect` | src-tauri/src/harness_log.rs:394-409 | for every day count the computed date is a valid Gregorian date of 1970 or later whose day number, summed from year and month lengths, is that count |
| `CivilDate.DayNumberGrows` | src-tauri/src/harness_log.rs:394-409 | later dates have greater day numbers, so the date is the only one with its day number |
| `Timestamp.TimestampInverts` | src-tauri/src/harness_log.rs:390-416 | for every second count the text reads back as a plausible date and time of day that are that second count |
| `Timestamp.DateTimeIff` | src-tauri/src/harness_log.rs:410-415 | the text has the `date-time` form of section 5.6 of RFC 3339 exactly up to the last second of the year 9999 |
| `HarnessLog.FileFits` | src-tauri/src/harness_log.rs:273-385 | over every run of frames, the file from header to state line stays within the cap whenever the header left the reserved 256 bytes, for every 64-bit counter and 32-bit exit code in the closing lines |
| `HarnessLog.TailFits` | src-tauri/src/harness_log.rs:356-375 | the truncation marker and the state line together never exceed the reserved 256 bytes |
| `HarnessLog.StateIsNamed` | src-tauri/src/harness_log.rs:356-375 | each terminal state is written under its own name and no other's, with its exit code in decimal if it has one and `null` otherwise |
| `HarnessLog.LinesCount` | src-tauri/src/harness_log.rs:356-375 | the marker and the state line carry the numbers of frames dropped here and before the log |
| `HarnessLog.FileMeans` | src-tauri/src/harness_log.rs:308-375 | a file is its header, all frames and the state line when they leave the reserved room throughout; otherwise the frames before the first that does not, one marker with the number of the rest, and the state line |
| `HarnessLog.KeptIsLongest` | src-tauri/src/harness_log.rs:329-343 | the frames kept are a prefix of those offered, leave the reserved room at every point, and the next one did not fit |
| `HarnessLog.HarnessLog.WriteFrame` | src-tauri/src/harness_log.rs:308-343 | keeps the file, the drop count and the byte count exactly those of the frames offered so far, and flushes exactly when 256 kept lines are unflushed; a state payload changes nothing |
| `HarnessLog.HarnessLog.WriteState` | src-tauri/src/harness_log.rs:356-375 | ends the file with the marker exactly when frames were dropped, naming their number, then the state line, all flushed |
| `RunLogs.KeyInvertsMint` | src-tauri/src/harness_log.rs:152-159 | the order key of a minted log name is the seconds, nanoseconds and sequence it was minted from, for all 64-bit values |
| `RunLogs.KeyIff` | src-tauri/src/harness_log.rs:152-159 | a file name has a given key exactly when it is `run-`, three 64-bit decimal numbers parted by the first two dashes, which are that key, and `.jsonl` |
| `RunLogs.MintedNamesInOrder` | src-tauri/src/outbox_state.rs:81-91 | two minted names compare as the numbers they were minted from and are distinct when those are |
| `RunLogs.AttemptsAreOldest` | src-tauri/src/harness_log.rs:168-194 | what a prune asks to delete are the oldest of the logs it scanned by seconds, nanoseconds and sequence, oldest first, with exactly `keep` of them spared if there are that many and none spared older |
| `RunLogs.NeverAForeignName` | src-tauri/src/harness_log.rs:168-194 | it never asks for a name that does not parse |
| `RunLogs.LogDirectory.Prune` | src-tauri/src/harness_log.rs:168-194 | looks at the first 4096 entries and removes exactly those of the asked-for files that can be removed, with `deleted + failed` equal to the excess |
| `RunLogs.CountsFiles` | src-tauri/src/harness_log.rs:168-194 | over distinct names, `failed` is the number of asked-for files that could not be removed and `deleted` of those that could |
| `OutboxState.EveryRunIsValid` | src-tauri/src/outbox_state.rs:255-380 | over every sequence of operations: at most 64 runs listed without repetition, exactly the entries; at most 32 handles held; the handles accounted for are exactly those there before and those moved in, each in exactly one place; none ever moves but from where it is held to released or handed out, for good; and those handed out are exactly the ones some operation took |
| `OutboxState.ApplyAccounts` | src-tauri/src/outbox_state.rs:255-380 | one operation: no handle is forgotten, exactly those of a stored inventory or of an accepted approval are added, every other stays where it is or is released, and the one handed out is the one the operation returns |
| `OutboxState.StoredValid` | src-tauri/src/outbox_state.rs:361-379 | storing an inventory keeps all that, and releases a handle for the cap only when the cap is then full |
| `OutboxState.CapHeldHandles` | crates/omnifrons-app/src/run_outbox.rs:562-577 | the loop keeps the first held handles up to the cap, in order, and returns how many it released; if any, the cap is exactly filled |
| `OutboxState.CappedFirst` | crates/omnifrons-app/src/run_outbox.rs:562-577 | a candidate keeps its handle exactly while fewer than the cap come before it; names and order stay |
| `OutboxState.ProposalsCapped` | src-tauri/src/outbox_state.rs:178-192 | over every run of proposals the record holds exactly the first 1024 entries in order, no empty proposal, and counts the rest |
| `OutboxState.RunTable.Insert` | src-tauri/src/outbox_state.rs:258-267 | afterwards the run is there with an empty record; a known run keeps its place, a new one comes last, after all the others below 64 and after all but the oldest at 64; every other run left keeps its record, and the approvals stay |
| `OutboxRuns.OrderIsTheWindow` | src-tauri/src/outbox_state.rs:236-267 | over every run of operations the table lists exactly the last 64 runs let in since the last clear, oldest first, where inserting one still listed lets none in |
| `OutboxRuns.OnlyItsOwn` | src-tauri/src/outbox_state.rs:153-379 | a remembered run's record changes by operations on that run only, and is forgotten exactly by a clear or, as the oldest of 64, when another comes in |
| `OutboxRuns.StoredMeans` | src-tauri/src/outbox_state.rs:361-379 | storing an inventory keeps the run's proposals and counters and every candidate's name and place, and a handle exactly while fewer than 32 are held by others and before it |
| `OutboxRuns.HeldIsHeldNow` | src-tauri/src/outbox_state.rs:300-310 | the figure the cap is compared with is exactly the number of handles held in runs and for approvals, and at most 32 |
| `OutboxState.RunTable.StoreCandidates` | src-tauri/src/outbox_state.rs:361-379 | hands the candidates back for a forgotten run, and otherwise returns exactly the number of handles the cap released |
| `OutboxState.RunTable.HoldApproved` | src-tauri/src/outbox_state.rs:332-342 | hands the source back exactly when the cap is full, and releases the one it replaces |
| `OutboxState.RunTable.TakeApproved` | src-tauri/src/outbox_state.rs:347-349 | hands the held source out once |
| `OutboxRuns.HeldIsTaken` | src-tauri/src/outbox_state.rs:332-349 | an approval whose source was held while there was room is handed that very source, whatever happens to runs and other approvals in between, and nothing the second time |
| `OutboxState.RunTable.TakeCandidateHandle` | src-tauri/src/outbox_state.rs:153-159 | hands out the handle of the first candidate of that name, if it still has one |
| `OutboxState.RunTable.Clear` | src-tauri/src/outbox_state.rs:312-318 | forgets everything, releases every held handle and returns the number of runs forgotten |
| `QuarantineMove.Directories.RenameAnchored` | crates/omnifrons-adapters/src/fs_quarantine_store.rs:83-182 | the call sequence, with others changing both directories before each call, ends in the outcome and passes through the states of its specification |
| `QuarantineLaws.MoveIsExact` | crates/omnifrons-adapters/src/fs_quarantine_store.rs:83-182 | with the destination name left to this call after its link: at every moment the destination directory is what others alone would have made of it with at most one name added that nothing else held; `Renamed` adds exactly the held file; a fallback whose undo succeeds leaves both directories as others alone would have |
| `QuarantineLaws.OutcomeIff` | crates/omnifrons-adapters/src/fs_quarantine_store.rs:83-182 | `DifferentVolume` exactly when the link says so; `Renamed` exactly when the link is made, the destination is seen to hold the held file, and the source is not seen to or its name is then removed; `Failed` in every other case |
| `QuarantineLaws.OnlyTheHeldFileLosesItsName` | crates/omnifrons-adapters/src/fs_quarantine_store.rs:150-171 | the source directory loses nothing but the source name, and that name held the held file exactly when nobody bound it to another file between the second identity check and the unlink |
| `QuarantineLaws.AnotherFileLosesItsName` | crates/omnifrons-adapters/src/fs_quarantine_store.rs:150-171 | a run in that window: the source name is bound to another file, the call answers `Renamed`, and that file's name is gone |
| `QuarantineLaws.AloneMoves` | crates/omnifrons-adapters/src/fs_quarantine_store.rs:14-30 | left alone, from any directories where the source name holds the file and the destination is free, the call answers `Renamed` and exactly that name has moved |
| `QuarantineLaws.NamedThroughout` | crates/omnifrons-adapters/src/fs_quarantine_store.rs:14-30 | with the source name left alone by others, the held file has a name at every moment of the call, however the system answers |
| `QuarantineLaws.RenamedKeepsOldNameIff` | crates/omnifrons-adapters/src/fs_outbox_entry_ops.rs:45-66 | after `Renamed` the source name still holds the file exactly when the second check's stat failed while it did |
| `QuarantineLaws.BothNamesLeft` | crates/omnifrons-adapters/src/fs_outbox_entry_ops.rs:45-66 | nobody else acts and that stat fails: `Renamed`, and the file under both names |
| `QuarantineLaws.LastNameLost` | crates/omnifrons-adapters/src/fs_quarantine_store.rs:162-181 | a source name removed between the second check and the unlink is outside the guarantee: the undo takes the last name away |
| `ApplyRecords.EveryRunIsSound` | crates/omnifrons-adapters/src/fs_apply_record.rs:102-178 | over every interleaving of any number of recorders, each of which may crash at any step and reclaim anyone's stale temporary file, every record file is accounted for as below |
| `ApplyRecords.RecordFilesAreWhole` | crates/omnifrons-adapters/src/fs_apply_record.rs:102-178 | every record file was there before and is as it was, or is named for one recorder's record and is empty or that record complete |
| `ApplyRecords.ReturnedIdsAreRecords` | crates/omnifrons-adapters/src/fs_apply_record.rs:102-124 | ids returned are distinct and new, and the file under each is that record complete |
| `ApplyRecords.FailureLeavesNoName` | crates/omnifrons-app/src/apply_record.rs:103-118 | a failed record leaves no name: every new record file belongs to a recorder that has not failed |
| `ApplyRecords.CompletedStays` | crates/omnifrons-adapters/src/fs_apply_record.rs:102-178 | a completed record is never replaced or removed, whatever anyone does next |
| `ApplyRecordStore.FsApplyRecordStore.Reserve` | crates/omnifrons-adapters/src/fs_apply_record.rs:156-178 | creates the first free name empty and exclusively, and changes nothing when all 10,000 are taken or the create fails |
| `ApplyRecordStore.FsApplyRecordStore.RecordWith` | crates/omnifrons-adapters/src/fs_apply_record.rs:102-124 | adds exactly one complete record under the first free name, or leaves the directory as it was, wherever it fails |
| `ApplyRecordStore.AloneIsARun` | crates/omnifrons-adapters/src/fs_apply_record.rs:102-178 | a call that goes through with nobody else at work is a run of the protocol, so what every run keeps holds of it |
| `ApplyListing.List` | crates/omnifrons-adapters/src/fs_apply_record.rs:218-267 | the pass over the directory stops at the first bad entry with that entry's error, a `.json` name whose stem is not text included, and otherwise returns the kept records sorted |
| `ApplyListing.VerdictMeans` | crates/omnifrons-adapters/src/fs_apply_record.rs:218-267 | a name without `.json` after a stem and an empty file are passed over; a file that is not text is `Unreadable`; one that does not decode, or whose name is not that of its own plan and instant at some attempt, is `Corrupt`; any other is kept under its name |
| `ApplyListing.FailsForTheFirst` | crates/omnifrons-adapters/src/fs_apply_record.rs:218-267 | a listing that fails does so with the error of its first bad entry |
| `ApplyListing.ListedIsNewestFirst` | crates/omnifrons-adapters/src/fs_apply_record.rs:218-267 | of two listed records the later comes first, and of two of one instant the one with the greater name |
| `ApplyListing.ListedIsExact` | crates/omnifrons-adapters/src/fs_apply_record.rs:218-267 | a listing succeeds exactly when no entry is bad, is sorted newest first, and holds exactly the kept records |
| `ApplyListing.ListingIgnoresOrder` | crates/omnifrons-adapters/src/fs_apply_record.rs:218-267 | two reads of one directory, in whatever order the system hands the files out, succeed or fail together and list the same |
| `ApplyListing.ListSucceedsIff` | crates/omnifrons-adapters/src/fs_apply_record.rs:244-262 | the listing of what any recorders left behind, crashed ones included, in a directory that held anything before, succeeds exactly when every completed record's instant fits its name, no file from before is bad and no `.json` name has a stem that is not text; one that is makes the whole listing fail |
| `ApplyListing.LateRecordCorrupts` | crates/omnifrons-adapters/src/fs_apply_record.rs:244-262 | one record at 10^20 nanoseconds in an empty directory: the call succeeds, and the listing of the one file it leaves is corrupt |
| `ApplyListing.ListReturnsTheCompleted` | crates/omnifrons-adapters/src/fs_apply_record.rs:218-267 | it then returns exactly the completed records and the good ones from before, each once, newest first; reservations and temporary files are skipped |
| `ApplyRecordNames.NameReadsBackIff` | crates/omnifrons-app/src/apply_record.rs:138-189 | a stored name reads back to its parts, an instant before the epoch as the epoch, exactly when the instant is below 10^20 nanoseconds, and otherwise not at all |
| `ApplyRecordNames.ParsesIff` | crates/omnifrons-app/src/apply_record.rs:138-189 | a name parses to a plan, an instant and an attempt exactly when it is the name such a record is stored under |
| `ApplyRecordNames.NamesAreDistinct` | crates/omnifrons-app/src/apply_record.rs:143-149 | no two plans, instants or attempts share a name, at any instant |
| `ApplyRecordNames.NamesSortByInstant` | crates/omnifrons-app/src/apply_record.rs:138-142 | the names of one plan sort as instant then attempt, as the fixed widths promise |
| `ApprovalLaws.FoldMeans` | crates/omnifrons-adapters/src/jsonl_approval_store.rs:286-361 | an id is listed exactly when it was ever approved, with the identity and instant of its last approval, and revoked exactly when a revocation came after that one, by the last of them |
| `ApprovalLaws.OrderedByFirstApproval` | crates/omnifrons-adapters/src/jsonl_approval_store.rs:286-361 | the list is ordered by first approval |
| `ApprovalLog.FoldConsistent` | crates/omnifrons-adapters/src/jsonl_approval_store.rs:286-361 | the order lists exactly the ids on record, each once, for every log |
| `ApprovalLog.JsonlApprovalStore.Replay` | crates/omnifrons-adapters/src/jsonl_approval_store.rs:286-361 | the loop over the lines yields the listing of the folded events, `Corrupt` exactly when some line that is not blank does not parse, and `Unreadable` for a file that is not text |
| `ApprovalLog.JsonlApprovalStore.Record` | crates/omnifrons-adapters/src/jsonl_approval_store.rs:366-398 | refuses a derived id already on file, and a log that does not read, with the file unchanged; otherwise appends exactly the approval's line |
| `ApprovalLog.JsonlApprovalStore.RevokeId` | crates/omnifrons-adapters/src/jsonl_approval_store.rs:400-406 | appends a revocation whatever the log says |
| `ApprovalLog.JsonlApprovalStore.FindActive` | crates/omnifrons-adapters/src/jsonl_approval_store.rs:408-418 | what it finds is a listed active approval whose path, size and SHA-256 are each those asked for, the last such one of the listing; it finds none exactly when the log reads and no active listed approval agrees on all three |
| `ApprovalLaws.LastActiveIsLast` | crates/omnifrons-adapters/src/jsonl_approval_store.rs:408-418 | of any list, the answer is the last active approval whose path, size and SHA-256 are each those asked for, and none exactly when there is none |
| `ApprovalLaws.FoundMeans` | crates/omnifrons-adapters/src/jsonl_approval_store.rs:408-418 | the same of any log: what is found is the last active match of its listing, and the log's own error if it does not read |
| `ApprovalLaws.EvidenceIsIgnored` | crates/omnifrons-adapters/src/jsonl_approval_store.rs:408-418 | the modification time and platform kept with an identity, on either side, change no answer |
| `ApprovalLaws.LogFailsIff` | crates/omnifrons-adapters/src/jsonl_approval_store.rs:286-361 | a log is `Unreadable` exactly when it is missing or not text, and `Corrupt` exactly when it is text with a line that is neither blank nor an event of schema 1 with a hexadecimal digest |
| `ApprovalLaws.EveryRunReads` | crates/omnifrons-adapters/src/jsonl_approval_store.rs:268-406 | over every run of successful calls from a file that reads, as the empty one does, the file reads and says exactly what the calls did, one event each |
| `ApprovalLaws.RunOps` | crates/omnifrons-adapters/src/jsonl_approval_store.rs:366-406 | any sequence of undisturbed calls on the store leaves exactly the file those runs are made of |
| `ApprovalLaws.RevokedStaysRevoked` | crates/omnifrons-app/src/approval_store.rs:51-75 | a revoked approval is never active again, whatever calls follow |
| `ApprovalLaws.RevocationHoldsIff` | crates/omnifrons-adapters/src/jsonl_approval_store.rs:340-350 | a revocation keeps its id from ever being active again exactly when the id was on record by then, or no approval can derive it; revoked before it is approved, an approval ends up active |
| `ApprovalLaws.IdsApprovedOnce` | crates/omnifrons-adapters/src/jsonl_approval_store.rs:366-386 | in every run each id is approved at most once |
| `ApprovalLaws.RecordedIsFoundIff` | crates/omnifrons-adapters/src/jsonl_approval_store.rs:209-225 | the approval just recorded is the one found again exactly when its path is valid Unicode; a path that is not is stored as other bytes |
| `ApprovalLaws.NonTextPathIsNotFound` | crates/omnifrons-adapters/src/jsonl_approval_store.rs:209-225 | the path of the one byte 0xFF, approved in an empty log: the log reads, and no approval of that file is found |
| `DefinitionSection.EventKeeps` | renderer/src/DefinitionSection.tsx:674-971 | every click, commit, unmount and answer, in any order and with the StrictMode replay of the mount effects, keeps the flags, the generations, the shown results and the plans consistent |
| `DefinitionSection.LoadingEnds` | renderer/src/DefinitionSection.tsx:634-695 | while the section loads, a scan with the current generation is in flight and its answer ends the loading, so it is never stuck |
| `DefinitionSection.ApplyIsAnswered` | renderer/src/DefinitionSection.tsx:606-615 | an apply is never superseded: while the section stays mounted its answer is always shown |
| `DefinitionSection.ShownBelongsToTheReport` | renderer/src/DefinitionSection.tsx:742-760 | a verification or a plan on screen was asked for against the latest scan's report, which is the report on screen if one is |
| `DefinitionSection.AppliesKeepTheirRequest` | renderer/src/DefinitionSection.tsx:922-945 | every apply sends a plan id with the request that plan came from, although its handler closes over an earlier render |
| `DefinitionSectionRuns.ApplySendsIff` | renderer/src/DefinitionSection.tsx:922-942 | after every run, a click on apply sends exactly when nothing is in flight and the last render shows a plan: that plan, with the request it came from; otherwise it changes nothing |
| `DefinitionSectionRuns.IdleApplies` | renderer/src/DefinitionSection.tsx:863-971 | from any idle section a preview, its render, an apply and its answer go through, sending that plan and showing that outcome |
| `DefinitionSectionRuns.FirstApply` | renderer/src/DefinitionSection.tsx:674-971 | so there is such a run from the first render, with or without StrictMode |
| `DefinitionSection.PendingFlagsClear` | renderer/src/DefinitionSection.tsx:650-658 | no pending flag outlives its request: while it is up, a request of its kind is in flight |
| `DefinitionSection.AnswerTakesFlagDown` | renderer/src/DefinitionSection.tsx:835-892 | an answer takes its flag down whether or not its request was superseded |
| `DefinitionSection.Component.MountEffects` | renderer/src/DefinitionSection.tsx:570-741 | the mount effects, and their teardown and replay under StrictMode, leave one current scan in flight and one superseded |
| `DefinitionSection.Component.Rescan` | renderer/src/DefinitionSection.tsx:762-781 | refused while a scan or an apply is in flight; otherwise clears every result and starts a scan |
| `DefinitionSection.Component.RunVerify` | renderer/src/DefinitionSection.tsx:822-853 | refused while anything is in flight; otherwise takes a generation of its own |
| `DefinitionSection.Component.RunPreview` | renderer/src/DefinitionSection.tsx:863-896 | refused while anything is in flight; otherwise drops the shown plan and the last apply's result |
| `DefinitionSection.Component.RunApply` | renderer/src/DefinitionSection.tsx:929-942 | refused while anything is in flight or without a plan in the last render; otherwise sends that plan |
| `DefinitionSection.Component.OnAnswer` | renderer/src/DefinitionSection.tsx:674-971 | each kind of answer runs its own handler, with the mounted and generation guards in the order the handlers have them; what each then shows is `ScanAnswered` to `ApplyAnswered` |
| `DefinitionSectionAnswers.ScanAnswered` | renderer/src/DefinitionSection.tsx:674-695 | after every run: the answer to the current scan of a mounted section ends the loading and shows the latest scan's report with the error as it was, or no report and, if the scan surfaces errors, its error; the answer to a superseded scan changes nothing shown |
| `DefinitionSectionAnswers.VerifyAnswered` | renderer/src/DefinitionSection.tsx:837-854 | after every run: a verify's answer lowers its flag and, if current, shows the verification of its own target against the latest report, or none and its error; nothing else changes |
| `DefinitionSectionAnswers.PreviewAnswered` | renderer/src/DefinitionSection.tsx:880-896 | after every run: a preview's answer lowers its flag and, if current, shows the plan of its own request against the latest report, or its error beside what was shown; nothing else changes |
| `DefinitionSectionAnswers.ApplyAnswered` | renderer/src/DefinitionSection.tsx:943-971 | after every run: an apply's answer lowers its flag and is shown as result or error, and the plan is kept exactly on `refused` and `run-active` |
| `DefinitionSectionAnswers.ApplyRescans` | renderer/src/DefinitionSection.tsx:943-971 | after every run: a scan that surfaces its errors starts exactly on `applied` and on every error but `run-active`, and clears only the scan's error and the last verification |
| `DefinitionSectionAnswers.ClickSupersedes` | renderer/src/DefinitionSection.tsx:579-588 | after every run: a click that is not refused puts exactly one more request in flight, and from then on no other answer is still wanted |
| `DefinitionSectionAnswers.OnlyMountIsQuiet` | renderer/src/DefinitionSection.tsx:634-648 | every scan but those of the mount surfaces its errors |
| `DefinitionSectionAnswers.UnmountEnds` | renderer/src/DefinitionSection.tsx:568-741 | after an unmount nothing shown has changed and every request in flight is superseded for good |
| `DefinitionSection.Component.OnApplyAnswer` | renderer/src/DefinitionSection.tsx:945-971 | a refusal and `run-active` keep the plan; a no-op drops it; an applied outcome and any other error drop it and rescan |

## Left out

- JSON text, SHA-256, lossy paths, and the hexadecimal conversion are parameters with stated laws: what is written parses back, digests are injective where that is said, hexadecimal inverts. `Sha256Digest::from_hex` also accepts sign characters inside a pair (`crates/omnifrons-domain/src/executable.rs:51`), which those laws do not rule out.
- `fsync` and durability across power loss; a crash here stops a recorder between two file-system calls.
- Windows variants of every module, access control lists, and errno mapping beyond the distinctions the code makes.
- Reading a whole file, hashing it, and comparing it is one atomic step in the definition writer and in the catalog repair.
- CatalogRuns.EveryRunReads: over appends that complete, and files whose last line is ended; a torn line is in the contract of `AppendLine`, and what a later repair makes of it in `RepairedReads`.
- CatalogStore.JsonlCatalogStore.Repair: removals of staged files and copies succeed, since the code ignores their results; other writers act at two moments, before the last re-read and after it.
- WrongRootScanner.Scan: over a finite tree that does not change during the walk; whether a file is misplaced is a parameter, and the `.git` check is two flags of the directory.
- DefinitionWriter.Opened: a special file that opens yields any bytes, one that does not is no file to the writer; a read that never ends is not part of this model.
- DefinitionWriterLaws.PublishedAsPlanned: a rewrite that lands between the second check and the rename is replaced unseen, as the code's own documentation says; `RacedOnlyByOthers` says when.
- DefinitionWriterLaws.FinishedIsClean: the removal of the temporary name succeeds, since the code ignores its result; temporary names are fresh, and nobody else opens the file under one.
- The definition writer's path validation and parent directory checks, and the fingerprint carried by its `Stale` error.
- QuarantineLaws.MoveIsExact: a failed undo leaves the added name, which its `undoFails` answer shows; the copy that follows a fallback is not part of this model.
- HarnessLog.HarnessLog.WriteFrame: no write or flush error; the frame's JSON is taken as it comes.
- HarnessLog.FileFits: assumes a header that leaves the reserved room; a longer one is written all the same.
- ApplyRecords.EveryRunIsSound: removals succeed, since the code ignores their results; which temporary files are stale is arbitrary.
- ApplyRecordStore.FsApplyRecordStore.RecordWith: ends before the stale temporary files are removed, which `ApplyRecords` has as steps of their own.
- ApprovalLaws.EveryRunReads: over calls one at a time whose appends complete; a torn line is in the contract of `AppendLine`.
- DefinitionSection.EventKeeps: without the create form, whose pending flag is then always clear, and without the consent and Gemini boxes, whose state only feeds a preview's request.
- DefinitionSection.ShownBelongsToTheReport: a render may lag behind the state for any time; what an apply sends then is the plan of the last render.
- Snapshot deduplication and pruning, the ignore ledger, the outbox policy store, the wrong-root and executable state tables: small tables that would only add easy members.
- The probers, the outbox inventory, the recovery entries, the run preparer and the PTY: thin system calls or single checks.
- React rendering, the other panels, Tauri wiring, the panic hook and the build configuration.
