# ai-dememory: verified models

A model, in Dafny 4.11, of the parts of ai-dememory whose correctness is hardest to see from reading one
function, with machine-checked proofs of what they promise. `dafny verify dfyconfig.toml` checks everything.

## What is modelled

**The configuration write path** (`scripts/config_file.py`), in layers.

- `LockTable`, `LockProtocol`, `LockInvariant`, `LockSafety`, `LockRivals`: the per-vault operation lock as a state machine over any
  number of processes and threads. One activation of the context manager goes through borrow, acquire, open, check,
  initialise, lock, validate, body, unlock, close, release and return; every step may fail, a process may crash, one
  thread may nest activations, and somebody may replace or remove the lock file. The reference-counted table of thread
  locks is also a class with the two functions of the source as methods.
- `Fences`: the nested cancellation fences of the main thread, with signals arriving between any two of their steps.
- `Publish`: writing the candidate, re-reading, replacing, and classifying an interrupted replacement, with every
  system call allowed to fail before or after its effect and other programs allowed to write the target in between.
- `PyText`, `TomlScalar`, `TomlLine`, `SectionEdit`, `SectionLens`, `TextLens`, `LensLaws`: the section editor on whole
  texts. Python's `strip`, `splitlines` and `join` are written out, the writer's printer is written out character by
  character, and a line grammar (headers, one `key = value` a line, comments, blanks) stands for TOML.
- `AnyText`: the same editor on texts with other line breaks and on values that hold them.
- `ConfigDoc`: the complete decision of the section setter, with schema checks, expectations and the size limit.
  `ConfigDecision` says in plain terms what it accepts.
- `ConfigStore`, `ConfigSafety`, `ConfigProgress`, `ConfigEndToEnd`: any number of writers, each running its transaction inside the lock,
  interleaved with everything that can go wrong in the lock and in the transaction.

**The HTML audit parser** (`scripts/docs_site_guard.py`): `DocumentAudit` is the parser class and its specification,
`DocumentAuditSafety` its invariants over every event sequence, `DocumentTree` its agreement with document trees and
the parsing of a whole page, and `DocumentReading` what all that means for raw attributes and for the texts of a page.

**The race-checked reader** (`ai_dememory_tool/vault_binding.py`): `StableRead` runs against an arbitrary history of the
file system; every system call takes effect at some later moment, may fail, and may deliver less than asked for.

**The index and the graph** (`scripts/index_memory.py`, `scripts/graph_memory.py`): `MemoryCorpus`, `IndexRebuild`,
`IndexLogs` (which rows of which log a rebuild carries), `GraphIndex` (loading the graph's memories through the index or from
the files), `GraphPaging`, `GraphDelivery` (both together), `GraphChoice` (which memories a caller may see).

**The context assembler** (`scripts/context_memory.py`): `ContextBudget`, and `ContextSelection`, its selection said without passes.

**Hook captures** (`scripts/hook_event.py`): `FrontMatter` (parsing front matter, which ends lines where `splitlines`
does, and updating it, which ends them at line feeds), `FrontBlock` (the delimited block of limited size around it),
`HookCaptures` (capture, review, archive), `HookRules` (their rules in plain terms), `ManagedBlock` (the maintained block in an instruction file).

**Two small machines**: `CommandRender` (`scripts/command_render.py`, PowerShell quoting by section 2.3.5.2 of the
PowerShell Language Specification) and `RequestSlots` (`scripts/http_api.py`).

## What the proofs found

Where a promise does not hold on all inputs, the model keeps the code as it is, and a lemma names inputs on which it
fails. The exact condition follows as an if-and-only-if where one is stated.

- A string with a DEL character is printed in a form that TOML does not read back, so such a value is always refused
  (`TomlScalar.StringRoundTrip`, `ConfigDoc.RenderedParses`).
- The section editor splits lines with `str.splitlines`, TOML only at line feeds. On a file with another line break
  inside a comment the edit of one section is accepted and drops a pair of another section
  (`ConfigDoc.SettingCanLoseData`, `LensLaws.SeparatorLosesData`). For every text and every values, an accepted edit sets
  its section and nothing else if and only if the lines that the editor keeps say all there was about the other tables
  (`AnyText.EditExact`, `ConfigDoc.SetSectionOnAnyText`).
- A failing final replacement of the index loses the old index, because the old file is removed first; the complete new
  one is still in the temporary file. That happens if and only if there was an index, the memories can be indexed and
  the replacement is the first step to raise, where errors that the program swallows do not count
  (`IndexRebuild.IndexStore.RebuildIndex`, `IndexRebuild.ReplaceCanFail`, `IndexRebuild.PruningNeverMatters`).
- A rebuild that succeeds drops a log of the old index whose reading raises (`IndexRebuild.UnreadableLogIsDropped`): a log
  is carried if and only if it can be read, or nothing is to be kept of it (`IndexRebuild.LogIsCarriedExactly`), and a
  second rebuild changes nothing if and only if every log that it cannot read is empty
  (`IndexRebuild.SecondRebuildIsIdentity`).
- Right after a rebuild the index and the files give the same memories, but not in the same order: the index sorts paths as
  texts, discovery component by component. With a directory `a` beside a directory `a-b` the first page already differs
  (`GraphIndex.HyphenChangesThePage`). Both ways load the same for every maximum if and only if no two wanted paths have,
  where they first differ, a slash in one and a smaller character in the other (`GraphIndex.FreshIndexAgrees`,
  `MemoryCorpus.CrossedExactly`, `GraphDelivery.BothWaysVisitTheSame`).
- If not all rows of the index are scanned, or not all files can be read, the last page of the graph always fails; so the
  end is reached if and only if all are, and the conditions of the next line hold (`GraphDelivery.DeliveryIsExact`).
- A page of the graph is refused if its memories alone make the graph too large (`GraphPaging.CrowdedPage`). Following
  the pages reaches the last one if and only if its offset is within the limit and the graph of every page is within the
  caps (`GraphPaging.PagingIsExact`).
- The estimate of an assembled context can exceed its budget (`ContextBudget.TextMayExceedBudget`). It keeps the budget if
  and only if heading, sections and separators have at most four characters for every token
  (`ContextBudget.BudgetHoldsExactly`; `ContextBudget.CandidatesKeepBudget` says it of the candidates, before the selection),
  and the overshoot is always bounded (`ContextBudget.OvershootIsBounded`).
- An update of front matter can have no effect: a line that begins with a single space keeps the last word on its key
  (`FrontMatter.SingleSpaceWins`), and so does a field behind a line separator in another line
  (`FrontMatter.SeparatorWins`). It can also leave indented lines below a replaced one. An update parses and sets exactly
  its keys if and only if it leaves no kept line without its map, has the last word on every updated key, and replaces
  no line that had a say on another (`FrontMatter.UpdateExact`; `FrontMatter.UpdateSets` where no replaced line is broken).
- A review with a long reason is accepted and makes the capture unreadable, because the rewritten block is larger than
  what is read back (`HookCaptures.LongReason`). A review takes effect if and only if the rewritten block fits and the
  update is effective (`HookCaptures.ReviewTakesEffect`); for the program's own captures, if and only if its five lines
  fit (`HookCaptures.EveryReviewThatFits`).
- An archive run moves files that it does not list (`HookCaptures.LongArchive`): the list is what is moved if and only
  if there are not more eligible files than the limit (`HookCaptures.ListedExactly`).
- Inserting the managed block twice differs from inserting it once, and removing it afterwards does not give the text
  back, exactly when the text has a stray begin marker and no end marker (`ManagedBlock.UpsertTwice`,
  `ManagedBlock.RemoveAfterUpsert`); a removal leaves another block behind exactly when one begins behind the first and
  an end marker is left (`ManagedBlock.RemoveLeavesNoBlock`).
- Removing the lock sentinel while it is locked lets two owners in (`LockSafety.RemovedSentinelSplitsTheLock`); without
  that there is one (`LockSafety.OneOwnerPerKey`). After tampering a second owner can enter if and only if the path is
  gone or names another file that may be a sentinel, as long as the owner's own process does not have that one locked
  (`LockRivals.SecondOwnerExactly`).
- Writers that run concurrently lose no section of each other's if and only if every edit found a file whose kept lines say
  all there was about the other tables (`ConfigEndToEnd.NoSectionLost`); values or files with other line breaks can break
  that.

## Model

| member | source | states |
|---|---|---|
| `LockTable.BorrowThenReturn` | scripts/config_file.py:418-442 | returning what was borrowed restores the table exactly, so a last user leaves no entry |
| `LockTable.ThreadLocks.constructor` | scripts/config_file.py:29-30 | a new table is empty and keeps every count positive and every lock distinct |
| `LockTable.ThreadLocks.Borrow` | scripts/config_file.py:418-430 | all borrowers of a live key get the one existing lock, a first borrower a new one, and the count goes up by one |
| `LockTable.ThreadLocks.Return` | scripts/config_file.py:433-442 | the count goes down by one, the last return removes the entry, a foreign lock is ignored |
| `LockInvariant.ReleasesOnlyItsOwn` | scripts/config_file.py:445-448 | the cleanup's release finds the lock owned by its thread exactly if this activation's own acquire succeeded |
| `LockInvariant.ActionKeeps` | scripts/config_file.py:576-660 | every step of an activation, failures included, keeps the nine-part invariant of the lock state |
| `LockInvariant.EnterKeeps` | scripts/config_file.py:612-618 | entering, nested or not, keeps the invariant |
| `LockInvariant.ReturnKeeps` | scripts/config_file.py:549-551 | handing the borrow back keeps the invariant |
| `LockInvariant.CrashKeeps` | scripts/config_file.py:584-589 | a crash that drops all of a process's activations, table, thread locks and file locks keeps the invariant |
| `LockInvariant.TamperKeeps` | scripts/config_file.py:603-607 | so does somebody replacing or removing the lock path |
| `LockInvariant.RunKeeps` | scripts/config_file.py:576-660 | hence every run keeps it |
| `LockSafety.MutualExclusion` | scripts/config_file.py:637-652 | in every reachable state two different owners of the kernel lock have different files locked, whoever crashed, timed out, nested or tampered |
| `LockSafety.OneValidOwner` | scripts/config_file.py:603-607 | at most one activation for a key would pass the identity check |
| `LockSafety.OneOwnerPerKey` | scripts/config_file.py:576-660 | while the lock path stays in place, at most one activation for a key is between locking and cleanup |
| `LockSafety.ActionsExactly` | scripts/config_file.py:576-660 | what an activation can do at each point of its code, and what it must find |
| `LockSafety.EntersValidated` | scripts/config_file.py:643-652 | whoever enters its body has just found the lock path naming the file that it has locked, of one byte |
| `LockSafety.SentinelStaysOneByte` | scripts/config_file.py:631-635 | however many openers initialise it, the sentinel never shrinks and never grows past one byte |
| `LockSafety.OwnersLockOneByte` | scripts/config_file.py:631-643 | whoever runs its body has locked a file of exactly one byte |
| `LockSafety.TableCountsBorrowers` | scripts/config_file.py:418-442 | in every reachable state an entry exists exactly while the key has borrowers, counts them, and all of them hold its lock |
| `LockSafety.LocksStayDistinct` | scripts/config_file.py:425-426 | no two keys and no two processes ever share a thread lock |
| `LockSafety.EachReturnCounts` | scripts/config_file.py:523-554 | no return of a borrow is ever ignored; each takes exactly one user off |
| `LockSafety.NeverReleasesAnotherHold` | scripts/config_file.py:549-550 | a cleanup whose acquire failed releases nothing; otherwise exactly one level of its own thread's hold |
| `LockSafety.CleanupAlwaysFinishes` | scripts/config_file.py:523-554 | whichever unlock or close fails, the cleanup runs to its end, returns its borrow once and its hold if it had one |
| `LockSafety.NothingLeaks` | scripts/config_file.py:653-660 | when all activations are over no table entry, no held thread lock and, unless a close failed, no kernel lock is left |
| `LockSafety.EntersAlone` | scripts/config_file.py:612-652 | with nobody in the way an activation reaches its body, whether the sentinel is there, with its byte or still without, or has to be created |
| `LockSafety.RemovedSentinelSplitsTheLock` | scripts/config_file.py:586-589 | a run with the sentinel unlinked in which two processes are in their bodies at once |
| `LockSafety.ReplacedSentinelSplitsTheLock` | scripts/config_file.py:586-589 | the same when another file is put in its place |
| `LockRivals.SecondOwnerExactly` | scripts/config_file.py:603-652 | after any history, with nobody tampering any more: a second owner can enter beside one inside only if the lock path is gone or names another file of at most one byte; and then it can, unless the owner's own process has that file locked |
| `Fences.StepKeepsShape` | scripts/config_file.py:476-520 | every install, restore, replay, arrival or exception keeps which handler is in force for every signal at every nesting depth |
| `Fences.StepConserves` | scripts/config_file.py:494-520 | every arrived signal is in exactly one place: run, dropped by an exception, or on one pending list |
| `Fences.RunKeeps` | scripts/config_file.py:476-520 | both hold in every reachable state |
| `Fences.NothingRunsInside` | scripts/config_file.py:544-551 | between the end of installing and the start of restoring a fence the handler that was active on entry never runs |
| `Fences.FencesLeaveNoTrace` | scripts/config_file.py:507-520 | when the outermost fence is left every handler is the one from before and nothing is pending |
| `Fences.QuietFencesDeliverAll` | scripts/config_file.py:519-520 | if no handler raises, every signal has then been delivered exactly once |
| `Fences.NeverStuck` | scripts/config_file.py:476-520 | in every reachable state the innermost fence can take its next step, whatever has been raised before |
| `Fences.CanLeave` | scripts/config_file.py:494-520 | from every such state all fences can be left without calling a handler that raises |
| `Publish.ConfigFile.constructor` | scripts/config_file.py:690-694 | a publication starts without a temporary file |
| `Publish.ConfigFile.CandidateIsCurrent` | scripts/config_file.py:730-750 | true exactly if the target holds the candidate, false exactly if it holds the expected content, an error for any third content |
| `Publish.ConfigFile.Swapped` | scripts/config_file.py:695-722 | what each failure leaves in the target, for every schedule of failures and interference |
| `Publish.ConfigFile.AtomicReplace` | scripts/config_file.py:679-727 | for every schedule of failures and interference exactly what the target holds and what is returned; success means the target holds the candidate, a re-raised error that it holds the expected content, a third content is reported, and the temporary file is gone unless removing it failed |
| `Publish.VerdictIsExact` | scripts/config_file.py:746-750 | without interference the verdict tells whether the interrupted swap took effect |
| `ConfigSafety.ExclusiveBodies` | scripts/config_file.py:1144-1146 | the lock invariant gives at most one open transaction per vault |
| `ConfigSafety.ActKeeps` | scripts/config_file.py:1143-1225 | every step of every writer and of the lock keeps the transaction invariant |
| `ConfigSafety.NoLostUpdate` | scripts/config_file.py:1143-1225 | in every interleaving the files are the recorded edits applied in order to the initial files, no edit is recorded twice, reported success means recorded and reported failure means not |
| `ConfigSafety.CommitsMeetTheirExpectations` | scripts/config_file.py:1147-1174 | when an edit went on record the main configuration met its expectation and the target became the candidate of exactly what it then held; nothing else changed |
| `ConfigSafety.TargetsStayGood` | scripts/config_file.py:679-727 | a target that starts absent or good stays so in every reachable state, crashes included |
| `ConfigProgress.StagesExactly` | scripts/config_file.py:1143-1225 | what a transaction can do at each stage, and when it can end |
| `ConfigProgress.CanCommit` | scripts/config_file.py:1143-1225 | a writer inside its lock whose expectations hold and whose edit gives a candidate can write exactly that, report success, and is on record |
| `TomlScalar.StringRoundTrip` | scripts/config_file.py:1080-1083 | a printed string reads back as itself if and only if it has no DEL character, for any text behind it |
| `TomlScalar.ItemsRoundTrip` | scripts/config_file.py:1080-1081 | the same for lists of strings |
| `TomlScalar.IntRoundTrip` | scripts/config_file.py:1074-1075 | every printed integer reads back as itself |
| `TomlScalar.ValueRoundTrip` | scripts/config_file.py:1071-1084 | a printed value reads back as itself exactly if it is readable, and is refused otherwise |
| `TomlLine.ReadLineRstrip` | scripts/config_file.py:1202 | the white space that the writer strips at the end of the text never changes what a line means |
| `SectionLens.CanonicalReads` | scripts/config_file.py:1252-1253 | the printed header of a section is read as that section |
| `SectionLens.PairReads` | scripts/config_file.py:1254-1256 | a printed pair is read as that pair, or refused, exactly by readability |
| `SectionLens.TableHeaderReads` | scripts/config_file.py:1005-1013 | the editor's one-line test for a header agrees with the parser on every line the parser accepts |
| `SectionEdit.SkipBody` | scripts/config_file.py:1187-1190 | skips exactly to the next header |
| `SectionEdit.EditLines` | scripts/config_file.py:1176-1200 | the editing loop computes the recursive replacement of the section, or the append |
| `SectionLens.ReplacedSets` | scripts/config_file.py:1181-1195 | replacing sets exactly one table of the parsed lines, and mentions the section exactly if the document has it |
| `SectionLens.EditSets` | scripts/config_file.py:1176-1200 | the edited lines read as the old document with exactly that table set |
| `TextLens.EditTextSplits` | scripts/config_file.py:1202 | the written text has only line feeds and splits back into the edited lines |
| `TextLens.EditTextSets` | scripts/config_file.py:1176-1203 | in the line grammar the written text parses, the section is exactly the values, every other table is unchanged, for all values that TOML can hold |
| `TextLens.TrimThenReplace` | scripts/config_file.py:1176-1202 | editing commutes with stripping the end of the text |
| `TextLens.SecondEditOverwrites` | scripts/config_file.py:1176-1202 | a second edit of a section gives byte for byte what it would have given without the first |
| `LensLaws.StaysEditable` | scripts/config_file.py:1313-1329 | an edit leaves every section as editable as it was |
| `LensLaws.EditIsIdempotent` | scripts/config_file.py:1176-1202 | the same edit twice writes the same bytes |
| `LensLaws.EditsCommute` | scripts/config_file.py:1176-1202 | edits of different sections commute on the parsed document |
| `LensLaws.EditTextStrict` | scripts/config_file.py:1176-1203 | TOML itself, which also refuses a key that names a table, reads the written text as the old document with that section set, and refuses it if and only if a new key names a table or a key that is there names the section |
| `AnyText.EditExact` | scripts/config_file.py:1176-1202 | for every text and all values: a result that parses is the section and what the kept lines say; nothing else changes if and only if they say all there was about the other tables |
| `LensLaws.SeparatorLosesData` | scripts/config_file.py:1176-1190 | for every section, key and value, a file on which an accepted edit of another section loses the pair |
| `ConfigDoc.RenderedParses` | scripts/config_file.py:1131-1132 | the check of the rendered section alone refuses exactly the values that would not read back |
| `ConfigDoc.CheckedNeverClashes` | scripts/config_file.py:1131-1132 | under a schema no key ever names a table, so that the setter is about TOML itself |
| `ConfigDecision.SetSectionDecides` | scripts/config_file.py:1109-1211 | the setter succeeds if and only if the section may hold the values and none has a DEL character; the file, if there is one, is accepted, has at most 65536 bytes and spells the section canonically; the expected table is the one it has there; and the result has at most 65536 bytes |
| `ConfigDecision.ParseExactly` | scripts/config_file.py:827-935 | a text is accepted as a configuration if and only if every table is a known section, provider or record with values of its fields' types, or an empty hull of them; what is then shown of it |
| `ConfigDecision.ExpectationExactly` | scripts/config_file.py:1167-1174 | an expected section does exactly one thing: the edit is refused unless the file has that table there, or none, and the empty one is expected |
| `ConfigDecision.MainExpectationExactly` | scripts/config_file.py:1143-1153 | the expected section of the main configuration likewise |
| `ConfigDecision.RendersLineByLine` | scripts/config_file.py:1252-1256 | the header, and one line for each value |
| `ConfigDecision.EditsInPlace` | scripts/config_file.py:1176-1195 | a section that is there once gives way to its rendered lines; what is before it stays, and what follows stays behind an empty line |
| `ConfigDecision.EditsAtEnd` | scripts/config_file.py:1197-1200 | a section that is not there is put at the end, behind an empty line |
| `ConfigDoc.SetSectionSets` | scripts/config_file.py:827-866 | after success the section is exactly the values and every other one is unchanged, except that the empty table of providers disappears when a provider is set |
| `ConfigDoc.SecondWins` | scripts/config_file.py:1109-1211 | of two settings of one section only the second is left, byte for byte |
| `ConfigDoc.Resend` | scripts/config_file.py:1109-1211 | sending the same setting again succeeds and changes nothing |
| `ConfigDoc.SettingsCommute` | scripts/config_file.py:1109-1211 | settings of different sections give the same configuration in either order |
| `ConfigDoc.SetSectionOnAnyText` | scripts/config_file.py:1109-1211 | whatever line breaks and values there are, an accepted setting changes nothing but its section if and only if the lines that the editor keeps say all there was about the other tables |
| `ConfigDoc.SettingCanLoseData` | scripts/config_file.py:1176-1190 | for every schema that knows both sections, an accepted setting of one that drops the only pair of the other |
| `ConfigEndToEnd.TargetsStayWhole` | scripts/config_file.py:1202-1222 | in every reachable state a target is absent or complete, parses, and fits the size limit |
| `ConfigEndToEnd.ExpectationsHeld` | scripts/config_file.py:1143-1174 | every recorded edit found, in the very files it replaced, the expected table at its section and at the expected section of the main configuration, an absent one counting as empty |
| `ConfigEndToEnd.UnmetIsRefused` | scripts/config_file.py:1143-1174 | a writer whose expectation is not met is refused at the step that looks |
| `ConfigEndToEnd.NoSectionLost` | scripts/config_file.py:1109-1225 | in every run, with whatever values and line breaks: all the time a file's tables are the initial ones with the recorded sections set in order, if and only if every recorded edit found a file whose kept lines say all there was about the other tables; a file that cannot be read is never changed |
| `ConfigEndToEnd.SafeValuesLoseNothing` | scripts/config_file.py:1109-1225 | that is so from a file with line feeds only, when the values have none of the three line breaks that are printed as they are |
| `ConfigEndToEnd.CommitSetsExactly` | scripts/config_file.py:1109-1225 | for whatever values and line breaks, what a recorded edit made of the file that it replaced, and when it changed nothing but its section |
| `DocumentAudit.DocumentParser.constructor` | scripts/docs_site_guard.py:5398-5432 | the parser starts with empty stacks and texts |
| `DocumentAudit.DocumentParser.CollectValues` | scripts/docs_site_guard.py:5464-5475 | the first attribute of a name counts, every repetition is a violation |
| `DocumentAudit.DocumentParser.MarkRelease` | scripts/docs_site_guard.py:5551-5602 | when a release block opens, deepens or is refused |
| `DocumentAudit.DocumentParser.HandleStartTag` | scripts/docs_site_guard.py:5462-5609 | the complete new state after a start tag |
| `DocumentAudit.DocumentParser.HandleEndTag` | scripts/docs_site_guard.py:5665-5700 | the complete new state after an end tag, mismatched and void ones included |
| `DocumentAudit.DocumentParser.HandleStartEndTag` | scripts/docs_site_guard.py:5702-5709 | a self-closing tag is a start tag, and a violation unless void |
| `DocumentAudit.DocumentParser.HandleData` | scripts/docs_site_guard.py:5711-5719 | where a piece of text goes |
| `DocumentAudit.DocumentParser.Feed` | scripts/docs_site_guard.py:5462-5719 | the events of a page, handled one after the other, lead to the state that the specification gives for the whole sequence |
| `DocumentAuditSafety.ExcludedMeansHidden` | scripts/docs_site_guard.py:5331-5350 | inside a container that the audit skips nothing is visible |
| `DocumentAuditSafety.NextStacked` | scripts/docs_site_guard.py:5537-5546 | after every event the stacks have equal height and every counter is the number of true flags on its stack |
| `DocumentAuditSafety.NextAdds` | scripts/docs_site_guard.py:5450-5460 | what one event adds to the visible, audited, untracked and per-release texts |
| `DocumentAuditSafety.ClosesWithItsContainer` | scripts/docs_site_guard.py:5684-5690 | an open release block keeps its container's place and closes in exactly the event that pops it; it opens only around a new visible container |
| `DocumentAuditSafety.NextFiled` | scripts/docs_site_guard.py:5595-5602 | the text of a release stays the concatenation of its blocks |
| `DocumentAuditSafety.NothingEscapes` | scripts/docs_site_guard.py:5395-5719 | after every event sequence: counters and stacks agree, visible text is a subsequence of audited text, visible text outside blocks of untracked audited text, and each release holds exactly what was visible while it was open |
| `DocumentReading.ParsesPruned` | scripts/docs_site_guard.py:5462-5719 | from every state the events of a tree restore the stacks, and add to the visible text the tree without the elements that hide theirs, to the audited text the tree without the four inert containers |
| `DocumentTree.ParsesAll` | scripts/docs_site_guard.py:5462-5719 | the same for a forest |
| `DocumentTree.CleanPagesAreTrees` | scripts/docs_site_guard.py:5665-5675 | every page without a violation of nesting is the serialization of a forest whose texts are those collected |
| `DocumentTree.ParsePage` | scripts/docs_site_guard.py:5756-5760 | a new parser that is fed a whole page and closed: its visible text is a subsequence of its audited text, and without a violation of nesting its texts are those of a forest |
| `DocumentReading.ValuesExactly` | scripts/docs_site_guard.py:5464-5475 | the table of values has every name that occurs, with the text of its first attribute |
| `DocumentReading.RepetitionsAreViolations` | scripts/docs_site_guard.py:5470-5474 | each attribute that repeats an earlier name is one violation |
| `DocumentReading.HidesExactly` | scripts/docs_site_guard.py:5501-5514 | what hides an element, attribute by attribute |
| `DocumentReading.StartPushes` | scripts/docs_site_guard.py:5534-5544 | a start tag pushes its element, unless it is void, with that flag |
| `DocumentReading.TextShownExactly` | scripts/docs_site_guard.py:5711-5719 | in every reachable state a text is shown if and only if no open element hides it, and audited if and only if none is an inert container |
| `DocumentReading.CleanPagesRead` | scripts/docs_site_guard.py:5395-5719 | a page without a violation of nesting is a forest, whose visible text is that without the elements that hide theirs, and whose audited text is that without the inert containers |
| `DocumentReading.StartOpensExactly` | scripts/docs_site_guard.py:5551-5599 | a start tag opens a release block if and only if none is open, it is marked, its element is the one container below plain ones, and nothing hides it |
| `DocumentReading.StartViolates` | scripts/docs_site_guard.py:5462-5609 | exactly the violations noted at a start tag, in their order |
| `DocumentReading.OthersViolate` | scripts/docs_site_guard.py:5665-5719 | exactly those of end tags, self-closing tags, texts and the end of a page |
| `StableRead.ReadBody` | ai_dememory_tool/vault_binding.py:185-193 | for every chunking, the body is the content up to one byte over the limit, if the content did not change meanwhile |
| `StableRead.ReadRegular` | ai_dememory_tool/vault_binding.py:165-208 | a returned body fits the limit and is the whole content, during an interval, of one regular file, no link, with an inode number and one name, that was at the path before and after; undisturbed, the outcome is exactly determined, each fault giving its own refusal |
| `StableRead.ValidExactly` | ai_dememory_tool/vault_binding.py:39-64 | which inodes pass the checks of files and of directories |
| `StableRead.DirectoryChain` | ai_dememory_tool/vault_binding.py:126-137 | all prefixes of the path, from its anchor to itself |
| `StableRead.DirectorySnapshot` | ai_dememory_tool/vault_binding.py:140-152 | every directory on the way was a plain one, each at a moment of its own; when nothing changes it fails exactly at the first that is not |
| `StableRead.SnapshotsEnclose` | ai_dememory_tool/vault_binding.py:155-162 | two equal snapshots show every directory to be the same before and after what lies between them |
| `StableRead.ReadInside` | ai_dememory_tool/vault_binding.py:242-256 | the read between two looks at the directories, with the first fault when nothing changes |
| `StableRead.ValidateStructuralVault` | ai_dememory_tool/vault_binding.py:211-260 | an accepted vault's directories were the same before and after its configuration file was read, whole and unchanged, between them; when nothing changes it is accepted exactly if nothing is wrong with it |
| `IndexRebuild.ReadRows` | scripts/index_memory.py:238-256 | reversing the descending limited selection gives the newest well-sized rows in ascending order; a statement that raises, for a missing table or any other reason, gives none |
| `IndexRebuild.FilteredRows` | scripts/index_memory.py:259-281 | of those, the rows of current memories and of none |
| `IndexRebuild.InsertRows` | scripts/index_memory.py:284-315 | restoring rows in key order into a fresh table loses and reorders nothing |
| `IndexRebuild.IndexStore.DumpGeneratedState` | scripts/index_memory.py:184-235 | each log that is there and can be read, with its own filter and limits |
| `IndexRebuild.IndexStore.RestoreAndPrune` | scripts/index_memory.py:284-303 | restoring is exact, and the pruning after it removes nothing, whichever of its statements raise |
| `IndexRebuild.IndexStore.BuildTemporary` | scripts/index_memory.py:154-163 | either no step raises and the temporary file is the complete new index, or the returned step is the first to |
| `IndexRebuild.IndexStore.RebuildIndex` | scripts/index_memory.py:137-181 | success exactly if no step raises, errors that are swallowed apart; otherwise the first step to raise is returned; the old index is lost exactly if that is the final replacement, and untouched after every failure before it; success carries the logs that could be read |
| `IndexLogs.RebuiltLogs` | scripts/index_memory.py:184-303 | of each log that can be read, exactly the rows that fit its length limits with fewer than 10000, or 5000, such rows behind them; of retrievals, lifecycles and outcomes only those about memories that are there or about none; of other logs nothing |
| `IndexRebuild.StepsExactly` | scripts/index_memory.py:137-181 | the steps whose errors make a rebuild fail, and what must have passed before the replacement |
| `IndexRebuild.NotBuildableExactly` | scripts/index_memory.py:137-152 | what keeps memories from being indexed |
| `IndexRebuild.LogIsCarriedExactly` | scripts/index_memory.py:238-256 | a log of the old index is carried if and only if it can be read, or nothing is to be kept of it |
| `IndexRebuild.UnreadableLogIsDropped` | scripts/index_memory.py:246-253 | for every log, a rebuild that succeeds and drops it |
| `IndexRebuild.PruningNeverMatters` | scripts/index_memory.py:289-303 | which prunings raise changes neither the rebuilt index nor whether it succeeds or the old one is lost |
| `IndexRebuild.SomeFirst` | scripts/index_memory.py:137-181 | unless no step raises, one is the first to |
| `IndexRebuild.ReplaceCanFail` | scripts/index_memory.py:176-178 | the final replacement can be the first step to raise |
| `IndexRebuild.NewestExactly` | scripts/index_memory.py:246-256 | a row is among the newest exactly if it is well sized with fewer than the limit of well-sized rows behind it |
| `IndexRebuild.CarriesExactly` | scripts/index_memory.py:259-281 | a row is carried exactly if moreover its memory is current or it names none; keys and order are kept |
| `IndexRebuild.SecondRebuildIsIdentity` | scripts/index_memory.py:137-181 | a second rebuild of the same memories changes no table if and only if every log that it cannot read is empty |
| `MemoryCorpus.PathLessIsSlashLess` | scripts/memorylib.py:376 | sorting path objects by components is sorting texts with the slash before every other character |
| `MemoryCorpus.CrossedExactly` | scripts/memorylib.py:376 | the order of the index and that of discovery put two paths differently if and only if, where the paths first differ, one has a slash and the other a smaller character |
| `GraphIndex.LoadFromMarkdown` | scripts/graph_memory.py:181-203 | the first accepted memories of the files in discovery order, up to the maximum; it fails exactly if there are too many files, or a file that cannot be read comes before there are enough memories |
| `GraphIndex.LoadFromIndex` | scripts/graph_memory.py:140-178 | the first accepted rows, up to the maximum; it fails exactly if the row limit comes before there are enough |
| `GraphChoice.LoadedExactly` | scripts/graph_memory.py:140-203 | the loaders deliver only sound memories that are public, internal if not only public ones are asked for, or any if sensitive ones are included, and if fewer than asked for, all of them |
| `GraphChoice.FilesExactly` | scripts/graph_memory.py:181-203 | from the files exactly these, but for prohibited ones |
| `GraphChoice.RowsExactly` | scripts/graph_memory.py:140-178 | from the index exactly those that a row names by path, identifier and hash |
| `GraphChoice.PageShowsExactly` | scripts/graph_memory.py:80-137 | no page shows any other memory |
| `GraphIndex.RebuildWrites` | scripts/index_memory.py:332-394 | an index row stands for a document that is not prohibited, and every such document has one |
| `GraphIndex.StaleRowIsSafe` | scripts/graph_memory.py:238-257 | a memory reached through any row is one the files give now, with the same document, and never prohibited |
| `GraphIndex.StaleIndexIsSafe` | scripts/graph_memory.py:140-178 | the same for the whole result of an index however stale |
| `GraphIndex.FreshIndexAgrees` | scripts/graph_memory.py:140-203 | right after a rebuild neither way fails, and both load from the same memories: the same whenever no more are wanted than are asked for; for every maximum, and in the same order, if and only if no two wanted paths are put differently by the two orders |
| `GraphIndex.HyphenChangesThePage` | scripts/graph_memory.py:140-203 | for every pair of memories in a directory and behind a hyphen, right after a rebuild the first page of one memory differs |
| `GraphPaging.AddOne` | scripts/graph_memory.py:319-329 | an item is refused exactly if the graph with it would exceed a cap |
| `GraphPaging.GraphFromMemories` | scripts/graph_memory.py:266-316 | the graph of all items, or a refusal exactly if it exceeds a cap |
| `GraphPaging.EdgesExactly` | scripts/graph_memory.py:290-311 | the edges are exactly the property edges and the references among the listed memories |
| `GraphPaging.NodesExactly` | scripts/graph_memory.py:266-323 | the nodes are the first that is offered under each identifier: memories by title, types, scopes, projects and tags by value |
| `GraphPaging.EndpointsAreNodes` | scripts/graph_memory.py:266-316 | both ends of every edge are nodes of the same graph |
| `GraphPaging.PageEdgesExactly` | scripts/graph_memory.py:102-103 | a page's edges are the full graph's edges that start in the page and, if references, end in it |
| `GraphPaging.BuildGraph` | scripts/graph_memory.py:80-112 | a page is delivered exactly for legal limits and offsets within the caps, with its slice, its graph and the next offset |
| `GraphPaging.PagingIsExact` | scripts/graph_memory.py:101-111 | following the pages visits every memory once in order in the least number of pages, if and only if the last offset is legal and the graph of every page is within the caps |
| `GraphPaging.CrowdedPage` | scripts/graph_memory.py:319-329 | one memory with more tags than a graph may have nodes makes its page refused |
| `GraphDelivery.LoadGraphMemories` | scripts/graph_memory.py:115-137 | through the index if there is one and it is preferred, from the files otherwise |
| `GraphDelivery.DeliverPage` | scripts/graph_memory.py:80-137 | a page is delivered exactly for legal options, limits and offsets, if neither loading one memory more than it needs fails nor its graph exceeds a cap |
| `GraphDelivery.DeliveryIsExact` | scripts/graph_memory.py:80-137 | following the delivered pages visits all that can be loaded once, in order and in the least number of pages, if and only if there are not too many rows, or files and all can be read, the last offset is legal, and the graph of every page is within the caps |
| `GraphDelivery.BothWaysVisitTheSame` | scripts/graph_memory.py:115-137 | right after a rebuild both ways to page visit the same memories in the same number of pages, and give the same pages if and only if no two wanted paths are put differently by the two orders |
| `ContextBudget.AssembleContext` | scripts/context_memory.py:81-256 | refused exactly for a budget below 200 or a negative share; otherwise the three passes compute the greedy selection, its text and its estimate |
| `ContextSelection.SelectsExactly` | scripts/context_memory.py:81-256 | the whole selection: working memory, durable memories and results are each taken exactly if they pass and fit what is left, no memory twice; sections, items and remainder are those of what is taken, in this order |
| `ContextSelection.TextExactly` | scripts/context_memory.py:240 | the text is the heading with the sections under it, an empty line between |
| `ContextBudget.BudgetIsKept` | scripts/context_memory.py:124-167 | the sections cost exactly what the remainder lacks, which is never negative; the baseline items stay within their share |
| `ContextBudget.NothingWouldFit` | scripts/context_memory.py:156-223 | no candidate left out for lack of budget would fit in the end |
| `ContextBudget.TextWithinBound` | scripts/context_memory.py:52-53 | the final estimate exceeds the cost of the sections by at most four and one for every two sections |
| `ContextBudget.BudgetHoldsExactly` | scripts/context_memory.py:237 | the final estimate is within the budget if and only if the heading, the sections and the separators have at most four characters for every token |
| `ContextBudget.CandidatesKeepBudget` | scripts/context_memory.py:81-256 | before the selection: the estimate is within the budget if heading, separators and all passing candidates have at most four characters for every token; only then, if the tokens of all of them fit |
| `ContextBudget.TextMayExceedBudget` | scripts/context_memory.py:237 | a rendered search result that makes the final estimate exceed the smallest budget |
| `ContextBudget.ItemSize` | scripts/context_memory.py:497-542 | no rendered item is shorter than its fixed parts, explained or not |
| `ContextSelection.ItemExactly` | scripts/context_memory.py:497-542 | an item line by line, with the explaining lines behind it if they were asked for |
| `ContextBudget.OvershootIsBounded` | scripts/context_memory.py:237-242 | for every assembly of rendered items the final estimate is at most the budget, five and a twenty-fourth of the budget |
| `FrontMatter.ReplaceLines` | scripts/hook_event.py:953-964 | every line of an updated key is replaced in place, and exactly the keys of replaced lines are collected |
| `FrontMatter.UpdateFields` | scripts/hook_event.py:941-969 | the loops find the closing line, replace, and insert what is missing |
| `FrontMatter.ReadsTheWords` | scripts/memorylib.py:558-583 | the parser accepts exactly the lines of the grammar, and its map holds the last word on every key |
| `FrontMatter.UpdateExact` | scripts/hook_event.py:941-969 | for every front matter that parses: exactly when the updated one parses, when the updated keys hold the new values, and when every other key stays |
| `FrontMatter.UpdateSets` | scripts/hook_event.py:941-969 | where no replaced line is broken: the update sets exactly its keys if and only if no indented line is left below a replaced one and the last line about every updated key carries its value |
| `FrontMatter.SingleSpaceWins` | scripts/hook_event.py:957-959 | for every key, an update that does not take effect |
| `FrontMatter.SeparatorWins` | scripts/memorylib.py:545 | for every key, an update that does not take effect because of a line separator in another line |
| `FrontBlock.TextParses` | scripts/memorylib.py:544-556 | the text of a block says what the pieces of its lines say up to the first delimiter |
| `FrontBlock.RewrittenFits` | scripts/hook_event.py:905-938 | a rewritten block is accepted exactly if it is not too large |
| `FrontBlock.RewriteExact` | scripts/hook_event.py:905-969 | an update of a block sets exactly its keys if and only if the rewritten block fits and the update of its lines is effective |
| `HookCaptures.HookStore.ExistingHookEvent` | scripts/hook_event.py:227-234 | found exactly if the inbox has a capture of the payload |
| `HookCaptures.HookStore.HookCaptureAtCapacity` | scripts/hook_event.py:237-250 | full exactly from the capacity on |
| `HookCaptures.HookStore.CaptureHookEvent` | scripts/hook_event.py:136-206 | the result names a capture of the payload in the inbox, old or new, or nothing changed |
| `HookCaptures.HookStore.ReviewHookCapture` | scripts/hook_event.py:989-1043 | accepted exactly for a pending capture that can be read, with a status, a reviewer and a reason; changes only that front matter |
| `HookCaptures.HookStore.ArchiveReviewed` | scripts/hook_event.py:749-848 | refused exactly for an invalid selection, a limit below one included; otherwise counts all eligible captures of the state before, lists the first of them, and moves them all if applied |
| `HookCaptures.CapturedKeeps` | scripts/hook_event.py:145-206 | one new file or none, one file a payload, never past the capacity, nothing else changed |
| `HookCaptures.ReviewedKeeps` | scripts/hook_event.py:974-985 | no body, no other file and no resolved capture changes |
| `HookCaptures.MovesCandidates` | scripts/hook_event.py:823-830 | applying moves exactly the eligible captures |
| `HookCaptures.ListedExactly` | scripts/hook_event.py:823-846 | the list is what applying moves if and only if there are not more eligible captures than the limit |
| `HookCaptures.LongArchive` | scripts/hook_event.py:838-842 | for every limit, an inbox of which applying moves a capture that is not listed |
| `HookCaptures.ArchivedKeeps` | scripts/hook_event.py:783-830 | an archive run loses, changes and overwrites nothing and moves only resolved captures |
| `HookCaptures.LifeOfCaptures` | scripts/hook_event.py:136-1043 | over every life: inbox and archive grow by exactly the captures made, one inbox file a payload, resolved files and bodies never change, nothing archived is overwritten |
| `HookCaptures.ReviewTakesEffect` | scripts/hook_event.py:905-1043 | an accepted review sets exactly its fields if and only if the rewritten block fits and the update is effective; the capture then has the chosen status and the same hook |
| `HookCaptures.FreshCapture` | scripts/hook_event.py:170-200 | a new capture is pending, names its hook and says nothing about a review |
| `HookCaptures.EveryReviewThatFits` | scripts/hook_event.py:905-1043 | in every life of the program's own captures an accepted review takes effect if and only if its lines fit into the block; otherwise the capture can no longer be read |
| `HookCaptures.LongReason` | scripts/hook_event.py:905-1043 | a reason of 11000 characters outside ASCII is accepted, and leaves a file that can neither be read nor reviewed nor archived |
| `HookRules.BlockExactly` | scripts/hook_event.py:905-938 | which blocks are accepted, and that their size is that of their text |
| `HookRules.MarkerExactly` | scripts/hook_event.py:916 | a delimiter is three hyphens with nothing but ASCII white space around them |
| `HookRules.GapExactly` | scripts/hook_event.py:928 | what must not stand inside a block |
| `HookRules.HookOfExactly` | scripts/hook_event.py:1073-1084 | the hook of a capture is the known one that its source reference spells |
| `HookRules.ScalarExactly` | scripts/memorylib.py:476-509 | what a value of front matter means |
| `HookRules.NumberExactly` | scripts/memorylib.py:499-508 | a number is digits, perhaps with a point between, perhaps behind a minus sign |
| `HookRules.UndoubledExactly` | scripts/memorylib.py:491 | between single quotes every pair of them is one |
| `HookRules.StatusExactly` | scripts/hook_event.py:851-857 | the status of a capture |
| `HookRules.CapturesExactly` | scripts/hook_event.py:136-206 | a capture is made if and only if its hook is known, the inbox has none of its payload, there is room, and the scan has nothing against it |
| `HookRules.AcceptsExactly` | scripts/hook_event.py:989-1024 | when a review is accepted |
| `HookRules.EligibleExactly` | scripts/hook_event.py:783-822 | when a capture is archived |
| `HookRules.WordsExactly` | scripts/hook_event.py:1002 | splitting a text into words keeps all that is not white space, in as many words as end in it |
| `HookRules.ReviewSays` | scripts/hook_event.py:1025-1036 | what a capture says after a review that takes effect, field by field, and that all its other fields are what they were |
| `ManagedBlock.UpsertFrames` | scripts/hook_event.py:1178-1185 | every insertion gives the same frame of what was before and behind |
| `ManagedBlock.FramedParts` | scripts/hook_event.py:1179-1183 | in a framed text the block is found where it was put |
| `ManagedBlock.FailsExactly` | scripts/hook_event.py:1180-1182 | when the search for the end marker raises |
| `ManagedBlock.UpsertTwice` | scripts/hook_event.py:1178-1185 | insertion is idempotent if and only if there is no stray begin marker without an end marker |
| `ManagedBlock.RemoveAfterUpsert` | scripts/hook_event.py:1178-1195 | removing an inserted block gives the original up to the white space at its end, or what removing the old block gives, if and only if there is no stray begin marker without an end marker |
| `ManagedBlock.RemoveLeavesNoBlock` | scripts/hook_event.py:1173-1195 | exactly when a removal leaves a block behind |
| `ManagedBlock.MarkersAreSane` | scripts/hook_event.py:1166-1170 | the markers of a client stand on one line without outer white space |
| `ManagedBlock.ClientBlock` | scripts/hook_event.py:1166-1218 | the instructions of a client, whose body starts no comment, make a block with its markers |
| `CommandRender.OnePassMore` | scripts/command_render.py:20-21 | one more replacement pass doubles one more delimiter and leaves what earlier passes doubled |
| `CommandRender.PowershellSingleQuoted` | scripts/command_render.py:19-22 | the five sequential replacements equal one simultaneous doubling |
| `CommandRender.VerbatimRoundTrip` | scripts/command_render.py:19-22 | a quoted argument lexes back to itself, whatever follows |
| `CommandRender.RenderingRoundTrip` | scripts/command_render.py:25-36 | the rendering lexes to the call operator and exactly the arguments; refused exactly for an empty list or a NUL |
| `CommandRender.RenderingTells` | scripts/command_render.py:25-36 | no two argument lists have the same rendering |
| `RequestSlots.StepConserves` | scripts/http_api.py:66-78 | every accept, failed start and handler end keeps slots, threads and releases in balance |
| `RequestSlots.SlotsAreConserved` | scripts/http_api.py:58-78 | in every interleaving the slots taken are the live threads and at most one in the accept loop, within the maximum, and each is given back exactly once |

## Left out

- Full TOML: values over several lines, inline tables, dotted keys in pairs, dates, and carriage returns are outside the line grammar; a `[section]` line inside a multi-line string would be taken for a header.
- Floats are kept as their printed tokens; non-finite numbers do not occur as tokens and are refused either way.
- Python's equality of `1`, `1.0` and `True` in the comparison of expected sections: the model compares values as they are.
- The schema tables of the configuration are a parameter of `ConfigDoc`; its proofs hold for all tables whose names are bare keys.
- Error codes, diagnostic positions and field names are reduced to success or refusal where no property depends on them.
- Lone surrogates and other encoding failures of configuration texts.
- The operating system's own locking calls, file descriptors inherited by other programs, and the validity check of lock names and timeouts.
- `TextLens.EditTextSets`: the line grammar takes a key that is also the name of a table, which TOML refuses; so do the grammars of `SectionLens.EditSets` and `AnyText.EditExact`. `LensLaws.EditTextStrict` is the statement about TOML itself, and `ConfigDoc.CheckedNeverClashes` says that a schema rules the case out.
- `LockSafety.OneOwnerPerKey`: needs the lock path to stay in place; `LockSafety.MutualExclusion` and `LockRivals.SecondOwnerExactly` say what holds when it does not.
- `LockRivals.SecondOwnerExactly`: the converse leaves out a file that the owner's own process has locked; whether its other activations or a failed close give that lock up is not decided.
- `ConfigEndToEnd.SafeValuesLoseNothing`: is about values without the three line breaks that the printer leaves unescaped; `ConfigEndToEnd.NoSectionLost` is the exact statement for all values.
- Writers outside the lock appear in `Publish` only; in `ConfigStore` every writer of a configuration file takes the lock.
- `Fences.FencesLeaveNoTrace`: an exception between the bytecodes that install a handler and note it, or restore it and strike it off, is not a step; nor is the order in which replayed signals reach the handlers.
- The parser's collection of titles, identifiers, references, metadata and SVG checks, and every violation that concerns neither nesting, attributes, visibility nor release blocks; style expressions, case folding and class lists are parameters.
- Discovery of memory files, but for its order and its limit on their number; the order of path objects is that of POSIX systems. The limits on entries and bytes are not part of the model; the secret scan, validation and hashing are parameters; `GraphIndex` assumes that a content hash tells documents apart.
- SQLite itself, full-text search, tags and aliases tables: tables are sequences in key order. A statement that raises makes its step raise, but for reading a log and pruning one, where the program swallows the error.
- Sorted presentation of graph nodes and edges; they are a map and a set.
- The filters before the budget in the context assembler (relevance, review status, identity) are one verdict per candidate, and the order of reviewed documents is given; the length limit of excerpts is not part of `ContextBudget.OvershootIsBounded`.
- The fixed metadata lines of a new capture: `HookCaptures.FreshCapture` holds for all lines that name no field of a review and fit the size limit. Dates, slugs, digests and the decoding of JSON texts that are not plain are parameters.
- Links in the inbox, date windows, and the lists of skipped and malformed captures.
- Captures made by several processes at the same moment: operations on the inbox follow one another.
- Aliasing of the open release block's list: `DocumentAudit` appends to the last block of the release instead.
- Floating point, POSIX quoting, Windows hook launching, sockets and timeouts.
- `scripts/ci_guard.py`, `scripts/ai_release_guard.py`, `scripts/git_lessons.py`, `scripts/capture_miss.py`, `scripts/harness_hooks.py`, reports, smoke tests and command-line dispatch: fixed text comparisons, plumbing, or easier variants of what is here.
