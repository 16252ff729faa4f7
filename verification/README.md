# Verified models of unarr's stateful core

unarr is a media agent: a daemon that serves streams, syncs with a server, edits flags
in Sonarr and Radarr, and backs up its own configuration. This project models the parts
of it that have to be right under races, failures and hand-edited files, and proves what
they promise.

- **Closing streams** (`ClosedSessions`, `CloseHandshake`, `SlotTeardown`). A web close
  marks a session id and then takes its registry entry; a session start registers its
  cancel and then re-checks the marks. There is no common critical section. Any number of
  closes and starts interleave one locked call at a time; the memory of closed ids is a
  bounded FIFO. `SlotTeardown` follows the cancel itself: the one /stream slot, its file
  generations, and a teardown that waits for external players.
- **Backups** (`ConfigText`, `ConfigPatterns`, `ConfigEdit`, `ConfigMerge`, `ConfigFit`,
  `ConfigLines`, `BackupLimits`, `BackupArchive`, `Restore`, `Schedule`). The line patterns of config.toml character by
  character, the rewriter that blanks and refills credentials, the size budget, the
  archive and its verification, the restore plan and its transaction, retention and the
  scheduler.
- **Agent state** (`Credentials`, `SyncInFlight`, `DiskProbe`, `StateFile`, `Mirrors`).
  Each is a class with the source's fields whose methods are specified by functions on
  values; the step systems are built from those same functions. `Runs` holds what all the
  step systems share.
- **TrueSpec reconciliation** (`TrueSpec`). Paged history, bisected batches and
  prefix-only lookups against the naive forms they replace.
- **Command lines** (`CommandLine`). The tokenizer and the Desktop Entry escaper.

## How it is modelled

Methods with loops are proved against specification functions, and the properties are
proved of those functions. A step is one mutex-protected call, except where the property
is about what happens between the calls of one operation. Everything that can fail
outside the program (writes, requests, probes, renames) is an arbitrary oracle, so
"for every pattern of failures" is a quantifier over it.

Assumed of what is not modelled:

- Decoding TOML is an arbitrary function of the text. `strconv.Quote` gives one string
  literal on one line.
- JSON gives a manifest back from its encoding, the checksum is written in lower-case hex,
  and a task queue that loads still loads once redacted. The checksum is injective only
  for planning a restore twice and for undoing it. Zip and encryption are faithful
  containers; the size of an archive file is an arbitrary function.
- Text is a sequence of characters; case folding and white space are ASCII.
- Calendar time is a count of nanoseconds in a zone without clock changes.
- A handler reports each item it was given once. History does not change between two pages.

## Where the code and its promise differ

Each has a witness, and the condition under which the promise does hold.

- The memory of closed ids is bounded: a closed session stays up exactly when its mark had
  been evicted at its start's re-check and no close came to take it afterwards
  (`ClosedStaysUpExactly`). With at most `max` ids closed that cannot happen
  (`TornDownIffClosed`); with one more, for every `max`, it can (`EvictionLeavesSessionUp`).
- A deferred slot teardown looks and clears in two calls: a reader that arrives in between
  is cut off (`LateReaderIsCut`), and no other is (`CutsOnlyLateReaders`).
- Merging a redacted config back is a round trip, and merging twice changes nothing, only
  under the conditions of `RedactMergeRoundTrip` and `MergeAgain`. The line patterns also
  see what looks like a setting inside a multi-line string: then a live key comes back as
  that text (`WrittenTwiceIsNotRestored`), and a second merge differs from the first
  (`SecondMergeDiffers`).
- Restoring twice changes a file again exactly when the archive shows a credential in two
  ways that a second merge reads differently (`SecondRestoreDiffers`, and
  `MixedFillsItself` onto an empty machine), or the first restore kept the machine's id but
  lost both of its agent credentials (`FitAgain`, `RestoreAgain`); a key written as a dotted
  key does that (`LostKeyRelapses`). Of the archives create writes only the latter is left
  (`CreatedRelapses`).
- A pre-restore snapshot is not held to the members' own caps, so it may be one `Open`
  refuses (`SnapshotOpens`, `OversizedSnapshotIsRefused`). One that opens can be restored
  exactly when every file it holds loads (`SnapshotPlans`), although it is also taken of
  files that do not (`BrokenSnapshotIsNotRestored`).
- A backup directory that cannot be listed looks empty. A tick can then write a second
  archive for the slot served last (`UnlistableWritesAgain`). A slot is served twice exactly
  when a tick's listing shows no archive as new as the slot served last
  (`OncePerSlotExactly`). The archive it writes is out of the reach of
  its own prune exactly when fewer scheduled ones are listed before it than are kept
  (`JustWrittenExactly`); otherwise the tick can delete it again (`PrunesItsOwn`).
- A snapshot's channel is closed by a reply that picks up a newer saved identity on its way
  and lands back where it started (`OpenIffUnmoved`, `MintBackCloses`).
- All processes share one temporary file name: once sealed, the state file can come back
  after the reap exactly when the temporary file names this process (`NoResurrection`), as
  it does after a last rename that failed (`FailedRenameResurrects`).
- The reap reads and removes the state file in two calls: it deletes another process's file
  exactly when it found its own and the other's was put in place since (`ReapRemovesOwn`,
  `ReapCanRemoveAnothers`).
- A stalled disk probe is logged exactly when no caller of that path gave up, since it last
  answered, on a result that was already there (`StallReportedOnce`); after such a caller
  the next stall is silent (`SilentStall`).
- A request loses its body exactly when a rebuild fails before one of the sends it would
  make (`RoundTrip`), and then leaves the pool's cursor on a mirror that was not tried
  (`LostBodyMovesOn`).

## Model

| member | source | states |
|---|---|---|
| RecentlyClosed.RecentlyClosedSessions.constructor | internal/cmd/closed_stream_sessions.go:29-31 | a new memory is empty, of any capacity, and usable for marks if it has room |
| RecentlyClosed.RecentlyClosedSessions.Mark | internal/cmd/closed_stream_sessions.go:34-47 | keeps set and order list in step, evicts the oldest id when full, reports whether the id was new |
| RecentlyClosed.RecentlyClosedSessions.Contains | internal/cmd/closed_stream_sessions.go:49-54 | an id is known exactly when it is in the order list |
| RecentlyClosed.MarkedValid | internal/cmd/closed_stream_sessions.go:34-47 | marking keeps the set equal to a duplicate-free order list within the bound, and forgets no more than the eviction does |
| RecentlyClosed.KeptByPosition | internal/cmd/closed_stream_sessions.go:34-47 | the id at a position survives any further marks exactly while the new ones among them do not reach its turn |
| RecentlyClosed.KeptUntilMaxNewIds | internal/cmd/closed_stream_sessions.go:34-54 | a marked id is remembered if and only if fewer than max new ids were marked since |
| SessionRegistry.PlayerSessionRegistry.Add | internal/cmd/player_session_registry.go:32-36 | registers a cancel, replacing an earlier one of that id only |
| SessionRegistry.PlayerSessionRegistry.Remove | internal/cmd/player_session_registry.go:38-42 | drops that id and no other |
| SessionRegistry.PlayerSessionRegistry.TakeForClose | internal/cmd/closed_stream_sessions.go:140-149 | hands the registered cancel out once and removes its entry |
| SessionRegistry.CloseByWeb | internal/cmd/closed_stream_sessions.go:98-125 | every non-empty id is marked, every registered one torn down once however often it is repeated, its HLS session closed before its cancel runs, the count returned, nothing else touched |
| SessionRegistry.RegisterServed | internal/cmd/closed_stream_sessions.go:157-166 | the session is live and registered if not closed, else its cancel has run and the entry is gone |
| CloseHandshake.StepGood | internal/cmd/closed_stream_sessions.go:98-166 | every step keeps, for every id, a served cancel in exactly one place (registered, handed to a teardown, held by its start, or run), and somebody about to take what is both remembered as closed and registered: one side always sees the other |
| CloseHandshake.RunInv | internal/cmd/closed_stream_sessions.go:98-166 | the invariant holds in every reachable state of any number of closes and starts |
| CloseHandshake.AtMostOnce | internal/cmd/closed_stream_sessions.go:98-166 | in every reachable state a served cancel ran at most once, and only for a closed id |
| CloseHandshake.ProbeCancelledOnce | internal/cmd/closed_stream_sessions.go:98-166 | in every reachable state the cancel of a probe ran at most once, only for a closed id, and is there for a close to take while the probe goes on |
| CloseHandshake.ClosedIsTornDownOnce | internal/cmd/closed_stream_sessions.go:98-166 | at rest a remembered, served id is not registered and its cancel ran exactly once |
| CloseHandshake.LiveOrTornDown | internal/cmd/closed_stream_sessions.go:98-166 | at rest a served session is registered or torn down once, never both or neither; a never-closed one is registered and live |
| CloseHandshake.ClosedStaysUpExactly | internal/cmd/closed_stream_sessions.go:98-166 | in every run, at rest, a closed and served session is still registered if and only if its mark was evicted before the re-check and no close took it since; otherwise its cancel ran exactly once |
| CloseHandshake.TornDownIffClosed | internal/cmd/closed_stream_sessions.go:34-47 | in particular, with at most max ids ever closed, a served session is torn down exactly when it was closed |
| CloseHandshake.EvictionLeavesSessionUp | internal/cmd/closed_stream_sessions.go:40-43 | for every max, closing max + 1 ids before a start leaves a closed session registered |
| SlotTeardown.ReleasedOnce | internal/cmd/closed_stream_sessions.go:207-227 | in every run a slot session's resources are released at most once, and once when its teardown is over, superseded or not |
| SlotTeardown.NewerViewerIsNeverCut | internal/engine/stream_server.go:699-711 | late teardowns of other sessions never take a newer file off /stream |
| SlotTeardown.ReadSlotIsKept | internal/cmd/closed_stream_sessions.go:214-226 | in every run a session closed while its slot is read is neither released nor cleared while the reading lasts |
| SlotTeardown.SupersededGoesOn | internal/cmd/closed_stream_sessions.go:196-227 | once another file took the slot, a waiting teardown goes on at its next look and leaves the slot alone |
| SlotTeardown.CutsOnlyLateReaders | internal/engine/stream_server_slot.go:14-25 | a clear takes only its own file, and cuts off only readers that came after the last look |
| SlotTeardown.LateReaderIsCut | internal/cmd/closed_stream_sessions.go:214-218 | such a reader exists |
| ConfigText.ParseExact | internal/backup/redact_config.go:53-58 | the key/value pattern accepts a line exactly when it reads as lead, one string literal and tail, and only one way |
| ConfigPatterns.SettingExact | internal/backup/redact_config.go:54-58 | a line is a setting if and only if it is blanks, a bare key, blanks, '=', blanks, one string literal, and blanks or blanks and a comment; in one way only |
| ConfigPatterns.LiteralExact | internal/backup/redact_config.go:58-58 | a string literal is quotes around plain and escaped characters, or apostrophes around anything but an apostrophe |
| ConfigPatterns.TailExact | internal/backup/redact_config.go:52-58 | a tail is blanks, or blanks and a comment |
| ConfigPatterns.HeaderExact | internal/backup/redact_config.go:52-53 | a line is a header if and only if it is blanks, one or two '[', blanks, a table name, blanks, one or two ']', and a tail |
| ConfigPatterns.BodyExact | internal/backup/redact_config.go:75-75 | the body of a line is all of it before the carriage returns and newlines at its end |
| ConfigText.JoinSplit | internal/backup/redact_config.go:72-91 | splitting a text after its newlines and joining it again gives the text |
| ConfigText.SplitJoin | internal/backup/redact_config.go:72-91 | joining lines and splitting again gives the lines |
| ConfigEdit.PutValue | internal/backup/redact_config.go:86-88 | another literal in place of a value leaves key, spacing, comment and line ending as they were |
| ConfigEdit.RewriteLineShape | internal/backup/redact_config.go:74-89 | an edited line reads as before but for its value, and sets the same table context |
| ConfigEdit.EventsRewritten | internal/backup/redact_config.go:71-92 | editing some settings and reading any is reading first and editing what was read |
| ConfigEdit.RewrittenLines | internal/backup/redact_config.go:71-92 | an edit keeps the number of lines and every line ending |
| ConfigEdit.RewrittenTwice | internal/backup/redact_config.go:71-92 | two passes equal one pass with both edits |
| ConfigEdit.SameRewrite | internal/backup/redact_config.go:71-92 | two edits of a file agree exactly when they agree on every recognised value |
| ConfigEdit.RewriteKeys | internal/backup/redact_config.go:71-92 | the loop yields the line-wise rewrite, and reports every recognised setting in file order |
| ConfigMerge.HaveIsWritten | internal/backup/redact_config.go:156-162 | what is at hand is a non-empty written value, and every setting with one is at hand |
| ConfigMerge.RedactMergeRoundTrip | internal/backup/redact_config.go:96-168 | merging a redacted config with its original restores it if and only if each credential reads as its last non-empty value, or as "" |
| ConfigMerge.RedactMergeOnce | internal/backup/redact_config.go:96-168 | with each credential written once, every line comes back, save that '' becomes "" |
| ConfigMerge.MergeAgain | internal/backup/redact_config.go:154-168 | merging the same archive over the result changes nothing if and only if the first merge was settled |
| ConfigMerge.OnceSettled | internal/backup/redact_config.go:154-168 | a config that sets each credential once settles in one merge |
| ConfigFit.RedactConfig | internal/backup/redact_config.go:100-112 | succeeds exactly when the blanked text decodes with every credential empty; otherwise says which is left or that it does not parse |
| ConfigFit.MergeConfigSecrets | internal/backup/redact_config.go:154-183 | fills the credentials in, and reports exactly those the machine had and the result lacks |
| ConfigFit.Lost | internal/backup/redact_config.go:170-182 | the reported credentials are exactly those set before and empty after, when both configs parse |
| ConfigFit.QuotedAgentIdGood | internal/backup/redact_config.go:240-247 | the id to keep is one string literal on one line, copied or quoted afresh |
| ConfigFit.SetAgentIdReads | internal/backup/redact_config.go:251-275 | whichever way the id is set, the config reads back with it and with every credential as it was |
| ConfigFit.SetAgentIdByLines | internal/backup/redact_config.go:251-275 | the loops replace the id, add it under the first [agent] header, or add that table |
| ConfigFit.FitKeepsSecrets | internal/backup/redact_config.go:190-236 | keeping the machine's id changes no credential |
| ConfigFit.FitAgain | internal/backup/redact_config.go:154-236 | fitting any archive over its own result changes nothing if and only if the merge was settled and it is not the case that the id was kept and both agent credentials were lost |
| ConfigFit.MergeReadsApart | internal/backup/redact_config.go:154-168 | two merges of one archive that read alike are the same text |
| ConfigFit.FitAgainNothingLost | internal/backup/redact_config.go:154-236 | with no credential reported lost and the merge settled, fitting again changes nothing |
| ConfigFit.WrittenTwiceIsNotRestored | internal/backup/redact_config.go:156-168 | a config with one key and a multi-line string that looks like another does not survive the round trip: the live key comes back as the text of the string |
| ConfigFit.RedactReads | internal/backup/redact_config.go:100-112 | every credential the patterns see in a redacted config is empty |
| ConfigFit.SecondMergeDiffers | internal/backup/redact_config.go:154-168 | an archive with such a string, merged over a machine with a key, differs the second time |
| ConfigFit.LostKeyRelapses | internal/backup/redact_config.go:203-236 | a machine whose key is a dotted key keeps its id on the first restore and loses it on the second |
| ConfigLines.SecretsAreFive | internal/backup/redact_config.go:28-34 | the credentials are exactly the five of the list |
| ConfigLines.CredentialIsRedacted | internal/backup/redact_config.go:28-112 | each of the five is recognised where unarr writes it, and empty once redacted |
| ConfigLines.MergedLines | internal/backup/redact_config.go:154-168 | every line of a merged config is the archive's, but for the value put into a credential that is empty there and known here |
| ConfigLines.ReplacedIdLines | internal/backup/redact_config.go:251-258 | where the id is recognised, setting it changes those literals and no other line |
| ConfigLines.AddedIdLines | internal/backup/redact_config.go:258-275 | where it is not, it becomes the first line of the first [agent] table and no header is added; without such a table, one is added after the text as it is |
| ConfigLines.FirstAgentFirst | internal/backup/redact_config.go:259-268 | that table is the first one |
| ConfigLines.WhoseId | internal/backup/redact_config.go:203-247 | the archive's id stays when a config does not parse, the ids agree, or the machine has neither api_key nor agent_hash; else the machine's, spelled as the machine spells it, if the config then decodes to it |
| BackupLimits.ContentBudget.constructor | internal/backup/limits.go:76-78 | a budget starts at the shared bound |
| BackupLimits.ContentBudget.Room | internal/backup/limits.go:88-90 | the smaller of the member's cap and what is left |
| BackupLimits.ContentBudget.Spend | internal/backup/limits.go:92-99 | succeeds exactly when the member fits its cap and what is left, and only then spends |
| BackupLimits.SpendAllExact | internal/backup/limits.go:88-99 | members can be spent one by one if and only if each fits its cap and the total fits the bound |
| BackupLimits.SpendAnyOrder | internal/backup/limits.go:63-99 | the order of the members does not matter |
| BackupArchive.CapsAre | internal/backup/limits.go:24-59 | 4 MiB for the config, 1 MiB for the manifest, 128 MiB for the rest and for all together, 16 members |
| BackupArchive.CollectSources | internal/backup/create.go:132-148 | the loop collects the files that exist, checked and redacted, or stops at the first that cannot be archived |
| BackupArchive.CollectedShape | internal/backup/create.go:132-167 | collected members are distinct known files, each what preparing its file gives |
| BackupArchive.CollectedAll | internal/backup/create.go:132-148 | no file that exists is passed over |
| BackupArchive.NothingThere | internal/backup/create.go:97-103 | there is nothing to back up exactly when neither file is there |
| BackupArchive.SpendMembers | internal/backup/create.go:203-208 | pack's loop accepts exactly the members whose budget works out |
| BackupArchive.LoadMembers | internal/backup/open.go:85-144 | the reader's loop loads every member within the same budget, or gives the first refusal: a bad name or type, a duplicate, a declared or real size over the room, a member that does not open or inflate |
| BackupArchive.VerifyMembers | internal/backup/open.go:157-178 | the loops find the first mismatch between manifest and members, in either direction |
| BackupArchive.ReadBack | internal/backup/open.go:85-144 | reading back what was zipped spends what the writer spent: it gives the files, or is too large exactly when they do not fit |
| BackupArchive.OpenPacked | internal/backup/open.go:23-55 | a packed archive opens to its manifest and files unless a member is over the reader's caps |
| BackupArchive.CreateThenOpen | internal/backup/create.go:85-120 | every manual or scheduled archive opens with its passphrase and holds exactly the collected files |
| BackupArchive.CreatedHolds | internal/backup/create.go:85-167 | read back, such an archive holds each of the two files that exists and nothing else: byte by byte if sealed, else the redacted queue and the redacted config, whose credentials all decode to nothing; and only files that load |
| BackupArchive.SnapshotOpens | internal/backup/create.go:38-44 | a pre-restore snapshot opens if and only if its members fit their own caps |
| BackupArchive.OversizedSnapshotIsRefused | internal/backup/limits.go:74-86 | a config one byte over its cap is snapshotted and the snapshot refused |
| BackupArchive.OpenIsVerified | internal/backup/open.go:23-178 | an opened archive is at most 129 MiB and of schema 1, and lists exactly the files it holds, under plain names, within caps, matching size and checksum; a sealed one needed its passphrase |
| BackupArchive.SafeIsPlain | internal/backup/open.go:146-153 | a member name is accepted exactly when it is not empty, no directory, and free of separators, colons and NUL |
| RestorePlan.Plan | internal/backup/restore.go:53-76 | one item per listed file in order, or the first refusal |
| RestorePlan.PlanItemExact | internal/backup/restore.go:104-163 | planning one file in full: which names, which bytes load, which configs are refused, where it goes, what would be written, and when it is created, unchanged or overwritten |
| RestorePlan.PlanExact | internal/backup/restore.go:53-76 | a plan exists if and only if each file can be planned, and consists of exactly those items |
| RestorePlan.MembersAreWelcome | internal/backup/create.go:150-167 | what create prepares passes every content and redaction check of restore |
| RestorePlan.CreateThenPlan | internal/backup/restore.go:104-131 | what create writes opens and plans on an empty machine, each file created with the archived bytes |
| RestoreApply.FileSystem.WriteFileAtomic | internal/backup/layout.go:78-110 | a write replaces the file or, failing, changes nothing |
| RestoreApply.FileSystem.RemoveFile | internal/backup/restore.go:231-231 | a removal removes the file or changes nothing |
| RestoreApply.Rollback | internal/backup/restore.go:223-244 | every destination not named is as before, and every named one holds its planned or its previous bytes |
| RestoreApply.Apply | internal/backup/restore.go:178-202 | for every pattern of failures: all files as planned, or all as before, or as before everywhere but at the destinations named; a failed snapshot changes nothing |
| RestoreTwice.PlanIsPlannedOn | internal/backup/restore.go:104-143 | a plan records what is on disk at each destination, as Apply relies on |
| RestoreTwice.FitSelf | internal/backup/restore.go:149-163 | merging a config into itself changes nothing if and only if no credential is written both empty and set |
| RestoreTwice.MixedFillsItself | internal/backup/restore.go:149-163 | a config that merging into itself changes |
| RestoreTwice.PlanItemAgain | internal/backup/restore.go:104-163 | a landed file plans as unchanged if and only if it does not relapse, for every archive |
| RestoreTwice.RestoreAgain | internal/backup/restore.go:53-163 | after a plan of any archive has landed, planning again finds every file unchanged if and only if none relapses, and is not refused when each credential is set once |
| RestoreTwice.SecondRestoreDiffers | internal/backup/restore.go:104-163 | an archive and a machine on which the first restore is planned and the second changes the config again |
| RestoreTwice.CreatedIsRedacted | internal/backup/create.go:85-167 | what a secret-free archive of create holds for the config is a redacted text |
| RestoreTwice.CreatedRelapses | internal/backup/restore.go:104-163 | such an archive, restored onto any machine, relapses if and only if the id was kept and both agent credentials were lost |
| RestoreTwice.RestoreAndReplan | internal/backup/restore.go:53-202 | plan, snapshot, apply under any failures, plan again: an applied restore leaves nothing to do but what a relapse brings back; nothing is written without a snapshot unless there was nothing to snapshot; a refused plan changes nothing |
| RestoreUndo.CollectedAsIs | internal/backup/create.go:132-148 | a snapshot collects every file that exists, byte by byte |
| RestoreUndo.SnapshotPlans | internal/backup/restore.go:104-143 | a snapshot that opens plans, on the machine as any restore left it, if and only if every file it holds loads, and puts each of them back |
| RestoreUndo.BrokenSnapshotIsNotRestored | internal/backup/create.go:38-44 | a config that does not parse is snapshotted, its snapshot opens, and cannot be planned |
| RestoreUndo.SnapshotUndoes | internal/backup/restore.go:174-202 | once that plan has landed, every file that existed before the restore holds its previous bytes; one the restore created stays |
| BackupCalendar.LastSlotIsLatest | internal/backup/schedule.go:19-32 | lastSlot is a scheduled instant, at or before now, and no later one is |
| BackupCalendar.SlotsAre | internal/backup/schedule.go:19-32 | a slot is the configured hours and minutes into a day, on the configured weekday |
| BackupCalendar.WeekdaysAre | internal/backup/schedule.go:22-28 | weekdays follow each other, and 1 January 2024 is a Monday |
| BackupCalendar.SlotIsWholeSecond | internal/backup/schedule.go:19-32 | a slot is not after the second an archive of that moment is stamped with |
| BackupRetention.NameRoundTrip | internal/backup/list.go:50-76 | kind, time and encryption are recovered from the file name |
| BackupRetention.NameExact | internal/backup/list.go:50-76 | a name is taken for an archive if and only if it is one of the three prefixes, a stamp and one of the two extensions |
| BackupRetention.GeneratedPath | internal/backup/create.go:263-271 | the first free name from the current second on |
| BackupRetention.NewestBackup | internal/backup/schedule.go:110-121 | the first entry of the listing that is not a snapshot |
| BackupRetention.NewestIsNewest | internal/backup/schedule.go:110-121 | no manual or scheduled archive is newer |
| BackupRetention.Prune | internal/backup/list.go:111-134 | deletes exactly the entries past the newest keep of their kinds that are not held back; stopped by one that cannot be deleted, exactly those before it |
| BackupRetention.LeftExactly | internal/backup/list.go:111-134 | when all that is due can be deleted, an archive is left if and only if fewer than keep of its kinds, or none, are listed before it |
| BackupRetention.PruneLeaves | internal/backup/list.go:111-134 | the number left is the smaller of max(1, keep) and the number listed |
| BackupRetention.OutOfReach | internal/backup/list.go:111-134 | an archive is out of a prune's reach if and only if fewer of its kinds are listed before it than are kept, or it is held back |
| BackupRetention.PruneKeepsCover | internal/backup/list.go:78-134 | no retention rule makes the newest backup older, whatever the listing left out |
| BackupScheduler.Scheduler.Tick | internal/backup/schedule.go:84-106 | attempts exactly when due and past the retry time, sets the retry time an hour ahead after a failure, and after a success prunes exactly the scheduled archives past the retention |
| BackupScheduler.JustWrittenSurvives | internal/backup/schedule.go:84-106 | with the directory listed in full, the archive a tick has written survives the prune of the same tick |
| BackupScheduler.JustWrittenExactly | internal/backup/schedule.go:84-106 | for every tick, its archive is out of its own prune's reach if and only if fewer scheduled ones are listed before it than are kept |
| BackupScheduler.PrunesItsOwn | internal/backup/schedule.go:84-114 | a tick that could not list the directory prunes the archive it wrote |
| BackupScheduler.WritesExactly | internal/backup/schedule.go:34-121 | a tick writes if and only if create succeeds, it is past the retry time, the schedule is on, and its listing shows no archive as new as the slot |
| BackupScheduler.StepOnce | internal/backup/schedule.go:34-106 | a step keeps it at one archive per slot if and only if it is not such a tick in the slot served last |
| BackupScheduler.OncePerSlotExactly | internal/backup/schedule.go:34-121 | any run of ticks, other backups and prunes writes at most one archive per slot if and only if no tick, in the slot served last, lists no archive as new as that slot; every served slot stays covered either way |
| BackupScheduler.CompleteRunsServeOnce | internal/backup/schedule.go:34-121 | in particular when every tick lists the directory in full |
| BackupScheduler.FailuresApart | internal/backup/schedule.go:84-98 | failed attempts are at least an hour apart in every run |
| BackupScheduler.UnlistableWritesAgain | internal/backup/schedule.go:110-114 | a run of one listed and one unlistable tick, a minute later, that writes two archives for one slot |
| Credentials.CredentialStore.GetIdentity | internal/cmd/credentials.go:49-53 | a snapshot binds the identity in force to the open channel |
| Credentials.CredentialStore.SetIdentityLocked | internal/cmd/credentials.go:55-63 | a new identity closes the old channel and opens a new one, the same one does nothing |
| Credentials.CredentialStore.RefreshIdentityLocked | internal/cmd/credentials.go:123-132 | memory takes the saved identity if the file loads |
| Credentials.CredentialStore.Persist | internal/cmd/credentials.go:163-173 | rewrites the identity of the file as it is now and keeps its other settings |
| Credentials.CredentialStore.Reload | internal/cmd/credentials.go:113-121 | reports the identity and whether it changed |
| Credentials.CredentialStore.AdoptKeyForIdentity | internal/cmd/credentials.go:136-145 | adopts a minted key exactly when the saved identity is the one the reply is tagged with |
| Credentials.CredentialStore.AdoptKey | internal/cmd/credentials.go:82-87 | the untagged form: adopts in memory and in the file, whatever identity either has |
| Credentials.CredentialStore.WipeKey | internal/cmd/credentials.go:91-103 | the untagged form: clears both |
| Credentials.CredentialStore.WipeForIdentity | internal/cmd/credentials.go:147-157 | wipes exactly when the saved identity is the one revoked |
| Credentials.StaleReplyIsHarmless | internal/cmd/credentials.go:134-157 | a reply tagged with another identity writes no file and leaves in memory only what the file says |
| Credentials.OpenIffUnmoved | internal/cmd/credentials.go:43-63 | over every run a snapshot's channel is open if and only if no step moved the identity since, and then it is the identity in force |
| Credentials.SavedLoginStays | internal/cmd/daemon_credentials.go:12-36 | over every run of polls and replies to other identities a saved sign-in stays in the file and is in force |
| Credentials.MintBackCloses | internal/cmd/credentials.go:136-145 | a reply can close the channel and end on the identity it started from |
| MediaFetch.Client.MediaFileOne | internal/arr/truespec_client.go:107-119 | a missing file is an empty answer, any other failure an error |
| MediaFetch.Client.MediaFilesBatch | internal/arr/truespec_client.go:78-105 | answers exactly the existing files of n ids for any orphans and spurious 500s, in at most 2n - 1 batch and n single requests, or one for no ids |
| MediaFetch.Client.MediaFiles | internal/arr/truespec_client.go:61-76 | the same over all chunks |
| MediaFetch.ExistingOnce | internal/arr/truespec_client.go:53-76 | of distinct ids each existing file is answered once and nothing else is |
| ImportHistory.HistoryEvents | internal/arr/truespec_client.go:22-40 | a prefix of the history that ends before the end only after a page whose last record is before the window, the first such page; nothing only if a page request failed |
| ImportHistory.LatestImports | internal/arr/truespec_flags.go:120-141 | the loop gives the import in force for each file |
| ImportHistory.CountsExactly | internal/arr/truespec_flags.go:127-131 | a record counts if and only if it names a file by number and a torrent by forty hex digits in either case, and is not before the window |
| Ascii.LowerCharIs | internal/arr/truespec_flags.go:128-128 | lower-casing moves the capitals 32 places on and leaves every other character |
| ImportHistory.LatestIsNewest | internal/arr/truespec_flags.go:120-141 | each mapped file has its newest valid import, the first of those with that date |
| ImportHistory.UnmappedHasNone | internal/arr/truespec_flags.go:120-141 | a file that is not mapped has no valid import |
| ImportHistory.FetchImports | internal/arr/truespec_sync.go:84-98 | stopping early gives the same map as the whole history, unless a page request failed |
| ImportHistory.GrabIndexers | internal/arr/truespec_flags.go:144-152 | the indexer of each torrent's last grab that names one |
| ImportHistory.IndexerIsLast | internal/arr/truespec_flags.go:144-152 | each mapped torrent has the indexer of the last grab that names one |
| ImportHistory.NoIndexerHasNone | internal/arr/truespec_flags.go:144-152 | a torrent that is not mapped has no such grab |
| ImportHistory.HashesAreInfoHashes | internal/arr/truespec_flags.go:154-164 | every mapped hash is forty lower-case hex digits |
| FlagPlan.PlanFlagChanges | internal/arr/truespec_flags.go:74-89 | the loop plans each file in turn, and nothing for an unknown app |
| FlagPlan.BitsTouched | internal/arr/truespec_flags.go:97-110 | only the Internal and Freeleech bits can differ; a verified file ends with Internal set, one from the tracker without Freeleech |
| FlagPlan.NextIsWanted | internal/arr/truespec_flags.go:101-110 | Internal is set if verified, cleared if not and from the tracker, else kept; Freeleech is cleared if from the tracker, else kept; every other bit is kept |
| FlagPlan.FromTCExactly | internal/arr/truespec_flags.go:98-99 | a file is from the tracker when the indexer's name contains the match in whatever case, and the match is not empty |
| FlagPlan.PlanOneExact | internal/arr/truespec_flags.go:91-115 | a file is planned exactly when its flags and torrent are known and its flags are not the wanted ones, and then it gets those |
| FlagPlan.OnlyKnownFilesAndBits | internal/arr/truespec_flags.go:70-115 | every change is of a listed file with a known hash and touches those two bits alone |
| FlagPlan.PlanAgainIsEmpty | internal/arr/truespec_flags.go:74-115 | planning over the files as written back finds nothing to change |
| TrueSpecSync.LookupAll | internal/arr/truespec_sync.go:134-147 | the answers of all chunks together are the answer to all prefixes, unless a call failed |
| TrueSpecSync.PrefixesOf | internal/arr/truespec_sync.go:121-132 | every five-character prefix once |
| TrueSpecSync.IdsOf | internal/arr/truespec_sync.go:111-118 | every file id once |
| TrueSpecSync.PrefixPlanIsFullPlan | internal/arr/truespec_sync.go:121-147 | the plan from the prefix answers equals the plan from the whole database |
| TrueSpecSync.PlanCount | internal/arr/truespec_flags.go:74-89 | a change is planned as often as its file is listed |
| TrueSpecSync.PlanFetched | internal/arr/truespec_sync.go:58-75 | from the fetched history on, exactly the naive changes are planned, each once, or a failure is reported |
| TrueSpecSync.SyncPlan | internal/arr/truespec_sync.go:43-75 | the paged, bisected, prefix-only reconciliation plans exactly the naive changes, each once, for every pattern of failing requests that lets it finish |
| TrueSpecSync.PatchedSettles | internal/arr/truespec_flags.go:74-115 | once the naive plan is written back nothing is left to plan |
| TrueSpecSync.SyncTrueSpecFlags | internal/arr/truespec_sync.go:43-82 | a failed sync changes nothing; one that succeeds reports the naive changes, applies them unless it is a dry run, and then leaves nothing to do |
| SyncInFlight.InFlight.AcceptNew | internal/agent/sync.go:476-487 | takes exactly the items not in flight, once each, and marks them |
| SyncInFlight.InFlight.AddResults | internal/agent/sync.go:494-497 | queues a worker's confirmations and failures |
| SyncInFlight.InFlight.FlushInto | internal/agent/sync.go:377-412 | every pending result goes into the request and stops being in flight |
| SyncInFlight.NewItemsAreNew | internal/agent/sync.go:476-487 | an item is accepted once if it is named and not in flight, else not at all |
| SyncInFlight.RunConserves | internal/agent/sync.go:377-531 | every run keeps an in-flight id in exactly one place: running, confirmed-pending or failed-pending |
| SyncInFlight.NothingLostOrDoubled | internal/agent/sync.go:377-531 | in every reachable state each id was sent as often as handed out, but for the one time still in flight |
| SyncInFlight.HandedOnceWhileInFlight | internal/agent/sync.go:474-531 | a response hands out an id exactly when all its earlier handings were sent |
| SyncInFlight.NextRequestSettles | internal/agent/sync.go:377-412 | once all workers have reported, the next request empties the books |
| DiskProbe.ProbeTable.Begin | internal/agent/diskprobe.go:73-91 | starts a probe exactly when none is busy, else answers the last good sample |
| DiskProbe.ProbeTable.Finish | internal/agent/diskprobe.go:96-109 | frees the path, keeps the sample of a success, and clears the slow mark, reporting whether there was one |
| DiskProbe.ProbeTable.GiveUp | internal/agent/diskprobe.go:119-135 | a caller that times out gets the last good sample, marks the path slow, and logs the first time |
| DiskProbe.Reachable | internal/agent/diskprobe.go:73-136 | every reachable state has single flight, a cache of measured and latest values, and slow marks that mean a caller gave up |
| DiskProbe.OneProbePerPath | internal/agent/diskprobe.go:73-136 | busy holds exactly while one probe is outstanding; callers finding it busy get the latest success or an error |
| DiskProbe.AnsweredBy | internal/agent/diskprobe.go:111-135 | a caller that waits is answered with what its own probe measured, one that gives up with the latest success of its path |
| DiskProbe.LateResultFrees | internal/agent/diskprobe.go:93-109 | however late a result comes, its path is free and not marked slow afterwards |
| DiskProbe.StallReportedOnce | internal/agent/diskprobe.go:119-130 | in every run a stall is logged if and only if no caller gave up on that path with its result there since it last answered, and no call logs twice |
| DiskProbe.SilentStall | internal/agent/diskprobe.go:111-130 | a run whose stall is not logged |
| StateFile.StateStore.WriteState | internal/agent/state.go:138-169 | nothing once sealed, else the temporary file and, if the rename goes through, the state file name this process |
| StateFile.StateStore.SealState | internal/agent/state.go:123-127 | latches and touches no file |
| StateFile.StateStore.ReapOwnState | internal/agent/state.go:211-215 | removes the file only if it names this process |
| StateFile.WriterAlone | internal/agent/state.go:138-169 | the steps of an undisturbed writer add up to WriteState |
| StateFile.ExitAlone | internal/cmd/daemon_exit.go:28-39 | the steps of an undisturbed exit add up to SealState and ReapOwnState |
| StateFile.NoResurrection | internal/cmd/daemon_exit.go:28-39 | in every run, whatever failed and whoever else is about, a file naming this process can come back after seal and reap if and only if the temporary file names it at the seal |
| StateFile.AloneNeverBack | internal/agent/state.go:93-169 | without other processes it never comes back, whatever fails and however writers straggle |
| StateFile.GoodRenamesLeaveNoTmp | internal/agent/state.go:155-169 | nor when none of this process's renames failed: the temporary file then does not name it at the seal |
| StateFile.ReapRemovesOwn | internal/agent/state.go:211-215 | in every run the removal deletes another process's file if and only if the reap had found its own and the other's was put in place since |
| StateFile.ReapCanRemoveAnothers | internal/agent/state.go:211-220 | a run that loses another process's file |
| StateFile.FailedRenameResurrects | internal/agent/state.go:155-169 | a failed rename and the shared temporary name can bring the file back |
| Mirrors.MirrorPool.constructor | internal/agent/mirror_pool.go:33-63 | a pool is the distinct usable addresses in first-occurrence order, never empty, cursor first |
| Mirrors.MirrorPool.Fill | internal/agent/mirror_pool.go:34-60 | the loop builds that list |
| Mirrors.MirrorPool.Replace | internal/agent/mirror_pool.go:104-110 | the same for a new list |
| Mirrors.MirrorPool.Rotate | internal/agent/mirror_pool.go:91-99 | moves one on, wrapping, unless there is one mirror |
| Mirrors.DistinctNoRepeats | internal/agent/mirror_pool.go:33-63 | no address is listed twice |
| Mirrors.DistinctLists | internal/agent/mirror_pool.go:33-63 | exactly the non-empty trimmed addresses are listed |
| Mirrors.DistinctKeepsOrder | internal/agent/mirror_pool.go:33-63 | later addresses only add to the end |
| Mirrors.NoTrailingSlash | internal/agent/mirror_pool.go:38-38 | trimming removes trailing slashes and nothing else |
| Mirrors.NormalExact | internal/agent/mirror_pool.go:37-41 | an address is what stands between white space, without its trailing slashes |
| Mirrors.TriedUntilFinal | internal/agent/client.go:548-577 | a round ends at the first final answer, and tries all mirrors exactly when every earlier failure is transient |
| Mirrors.RoundIsDistinct | internal/agent/client.go:548-577 | no round visits a mirror twice, and a full one visits them all |
| Mirrors.WithMirrorFailover | internal/agent/client.go:548-577 | visits mirrors cyclically from the cursor until a final answer and leaves the cursor on the last one tried |
| Mirrors.RoundTrip | internal/agent/mirror_transport.go:40-90 | the same for one request, sent once if not replayable; its body is lost if and only if a rebuild fails before one of the sends it would make, and then the cursor is on the mirror not tried |
| Mirrors.LostBodyMovesOn | internal/agent/mirror_transport.go:51-57 | with two mirrors, the first down and the second rebuild failing, the cursor ends on the second, untried |
| CommandLine.SplitCommand | cmd/unarr-desktop/playercommand.go:114-154 | the character loop computes the tokens the scanner defines |
| CommandLine.SplitReads | cmd/unarr-desktop/playercommand.go:107-154 | words apart by blanks, each any mix of ordinary characters, single quotes that keep everything, double quotes with escapes and escaped characters, come back as they were meant; an empty pair of quotes is an empty token |
| CommandLine.ExecValueIsOneToken | cmd/unarr-desktop/autostart.go:42-50 | an escaped path is one token for every path: the path with each percent sign doubled |
| CommandLine.EscapedReadsBack | cmd/unarr-desktop/autostart.go:36-50 | read as the Exec key section of the Desktop Entry Specification has it, with every reserved character behind a backslash, the value gives the path |
| CommandLine.ExecValueRoundTrip | cmd/unarr-desktop/autostart.go:36-50 | reading field codes gives back the very path |

## Left out

- Zip, SHA-256, PBKDF2, AES-GCM, TOML and JSON themselves: library code, parameters here.
- HTTP, event streams, service managers, firewall, registry, sign-in, menus, dialogs and
  command output: plumbing and user interface.
- Notes and warnings of a plan and of plain archives: they do not affect what is written.
- `unregisterIfClosedByWeb` and the HLS registry's own teardown: a second instance of the
  re-check on another registry.
- Daylight-saving changes, symbolic links, directory creation, file modes, environment
  overrides of credentials.
- Other processes editing config.toml inside one credential-store call: each call is atomic
  against the file.
- The order of sorted ids and prefixes: the results do not depend on it.
- The count of checked files in the report of a sync.
- Which errors are transient: an arbitrary outcome of each attempt. Parsing of a mirror's
  address is not modelled either.
- The marker a wipe leaves for hosts whose key comes from the environment.
- Delivery of a built request: one that never arrives takes its confirmations with it.
- RecentlyClosed.RecentlyClosedSessions.Mark: asks for room for one id, as a memory without
  any indexes an empty list on its first mark; the only capacity used is a positive constant.
- SessionRegistry.CloseByWeb: runs each teardown inline; the steps of CloseHandshake spawn them.
- MediaFetch.Client.MediaFilesBatch: a 500 on an empty list of ids, which would be halved for
  ever and which no caller asks for, is excluded.
- RestoreApply.Apply: is given its snapshot as saved, absent or failed;
  RestoreTwice.RestoreAndReplan takes it with create. Pruning old snapshots afterwards is not
  part of it; a manifest that lists one file twice may make the rollback name a destination
  it did put back.
- ConfigFit.FitAgainNothingLost: asks that setting the id does not change whether a credential
  decodes to a value, which a decoder of the whole text could; ConfigFit.FitAgain does not.
- StateFile.NoResurrection: removing the file is taken to succeed.
- Mirrors.WithMirrorFailover: one caller at a time; concurrent callers share the cursor.
