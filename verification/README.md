# eas-bridge, verified

eas-bridge serves an Exchange ActiveSync account over IMAP, SMTP and CalDAV. This project models
the parts of it that keep state or transform data, and proves what they are for.

The calendar. The server replays pages of events under rotated ServerIDs and UIDs. The bridge folds
the copies into aliases of one visible event, promotes an alias when its canonical ID is deleted,
splits off an alias that diverges, prunes old aliases, and records every change in one batch that is
appended to a log and replayed over a snapshot at restart. `Calendar` specifies each operation on a
pair of maps with the batch beside it; `CalendarLaws`, `CalendarDeletes`, `CalendarReplay`,
`CalendarTwins` and `CalendarRepair` prove what the operations mean, above all that the folded cache
refines a plain map from remote identities to events; `CalendarMeaning` says record by record and page
by page what is shown, and `CalendarMarks` which identities pruning takes and must leave. `EventLog` and `LogFile` are the batch, its
replay and its line in the file; `CalendarRun` is the machine of pages, saves, local writes, repairs,
compaction, failed writes and crashes, `CalendarText` the same over the text of the log, with appends
that stop anywhere, and `CalendarRetry` is about rounds with a reset in the middle.
`CalendarIndex`, `CalendarStore` and `CalendarSync` are the classes that change the maps in place,
each method equated with the specification; `CalendarLoops` says what their loops amount to, and
`CalendarRound` is a whole round, call by call, with what holds at its end.

Mail. `Mail`, `MailMerge`, `MailOrder` and `MailFields` compare the batched merge of a sync round with
applying its pages one at a time, and prove that the invalidation list covers every change;
`MailInvalidation` is exactly what it covers, and `MailAttachments` which value an attachment ends up
with. `Uids` is the machine of UID assignment over two files with crashes between the writes, `UidSteps`
what its single steps leave behind, `UidCrashes` the same machine with main files that cannot be
written; `MailStore` is the class.

Concurrency. `Flights` is singleflight and the four-slot gate as interleaved steps of any number of
callers, `FlightLaws` what a caller can count on; `Breaker` is the global breaker over any history of
results.

Messages. `Base64`, `Mime`, `Message` and `Download` are the encoding, the entity tree and its
renderings, the way from a mail item to its bytes, and ranged attachment downloads. `Base64Text` holds
the encoding against section 4 of RFC 4648, `MimeReading` and `MessageReading` read the rendered bytes
again, with a reader that knows nothing of the writer, and `MessageSources` is about the replies a
message is rebuilt from. `MessageCache` is the cached message while fetches and merges interleave.

`Recurrence` (with `Text`) is the RRULE printer and parser of section 3.3.10 of RFC 5545, and
`RecurrenceMeaning` says which rules of clients keep their meaning; `RecurrenceTables` and `TextLaws`
spell out the tables and the string operations. `Folders` is
the memoised resolution of folder names over any parent graph, and `FolderNames` what the names are.
`Ids` is Go's string order and sorting.

`dafny verify dfyconfig.toml` checks everything. Lemmas switch off automatic induction, so each proof
is the one that is written.

## Where the code keeps less than it promises

Each of these is stated as an exact condition, or proved of a concrete state, on the code as it is.

- The comment at caldav_write.go:403 calls parser and printer strict inverses. They are inverse on
  exactly the records in normal form (`Recurrence.ParsePrintIffNormalForm`): an interval of 1, a
  count beside an end date, or a month on a weekly rule does not come back. The comment also says that
  unsupported combinations are refused; many are accepted and come back with another meaning, all but
  those of `RecurrenceMeaning.MeaningKeptIffExpressible`.
- The repair of duplicates does not retarget aliases (sync.go:894-898); it is safe exactly when none
  points at a folded event (`CalendarRepair.DedupeIsSafeUnlessItStrands`).
- An update of a canonical event also changes what its folded identities stand for
  (`CalendarLaws.AddRefinesPlainStore`, both directions).
- Pruning finds an event by content alone, folding by UID first. So the bound on aliases holds for a
  visible event exactly if no smaller visible event has its content
  (`CalendarTwins.AliasesStayBoundedIff`).
- A CalDAV write between two pages of a sync round is logged before the round's pending batch and
  undone by it at restart (`CalendarRun.InterleavedWriteIsLost`, `CalendarRun.StepAgreesIffHarmless`).
- The Status 5 retry drops the pending batch but keeps its changes in memory, on the ground that all
  is pulled again (sync.go:671-681). What memory already shows is not recorded again, so a new event
  stays in memory and in no file (`CalendarRetry.RetryForgetsEvent`, `CalendarRetry.RepeatsRepairNothing`);
  `CalendarRetry.RetriedRoundAgreesIff` says, over state and pages, exactly when a round comes out
  right. An error return drops the batch too; the step for it is harmless exactly when the batch was
  redundant.
- The repair at startup writes a snapshot and no log line; if the log cannot be emptied, its old lines
  undo the repair exactly when they name a folded event (`CalendarRun.StartupRepairAgrees`).
- An append after a torn last line joins it, and both are lost, unless the tail is white space
  (`LogFile.AppendIsReadIffTailIsBlank`). A failed append leaves such a line and the process goes on,
  so it costs the next successful one too (`CalendarText.TornSaveTakesTheNext`); what a run amounts to
  is `CalendarText.TextRunsAreRuns`.
- If the main state file cannot be written and the process goes on and then dies before any later
  write of it, UIDs may be given a second time: exactly if the files do not cover what was shown
  (`UidCrashes.CrashIsHarmlessIffCovered`). Lost with the very first write is also the UIDVALIDITY
  (`UidCrashes.FirstMainWriteLost`).
- A message deleted and then added or changed again in one round is lost in the batched merge;
  changes of unknown messages and changes before a new version come out in another order or content.
  `MailMerge.BatchedMergeKeepsIDsIff` and `MailOrder.BatchedMergeIsFaithfulIff` are exact.
- A fetch that read a message's summary before a merge caches the old message after the merge has
  removed the cached one (`MessageCache.OvertakenFetchIsCached`); a removal is enough exactly if no
  such fetch is in flight (`MessageCache.RemovalIsEnoughIff`).
- The comparison that decides invalidation looks at instants, but the zone of a date is printed
  (`Message.SameBytesIffSameDate`).
- A ranged reply of only white space is neither refused nor any progress
  (`Download.StallsIffOnlyWhiteSpace`).
- Names of folders that are on or below a cycle of two or more user folders depend on the order of a
  Go map walk, and no others do (`FolderNames.DependsOnOrderIffReachesCycle`).

## Model

| member | source | states |
|---|---|---|
| `CalendarStore.DiskState.AddEvent` | sync.go:1024-1078 | the branches of a server Add (known event, kept alias, fold into an equal event, new event) change the maps, the index and the change record exactly as the specification of Add says (CalendarMarks.AddMarks and CalendarMeaning.PageInOrder say what that means), and keep the cache valid |
| `CalendarStore.DiskState.ChangeEvent` | sync.go:1083-1119 | the same for a server Change: a diverging alias becomes an event of its own |
| `CalendarStore.DiskState.DeleteEvent` | sync.go:1124-1178 | the same for a server Delete, with promotion of the least alias and retargeting of the others |
| `CalendarStore.DiskState.PageIsDuplicateReplay` | sync.go:939-963 | returns exactly whether every Add of the page resolves to a visible event with the same content, or has one by content alone |
| `CalendarStore.DiskState.PruneReplayAliases` | sync.go:969-1019 | stale replay aliases of the touched events go, and of the stable ones all but the top eight (what that means is CalendarMarks.PruningIsRight); everything else stays |
| `CalendarStore.DiskState.DedupeEvents` | sync.go:879-903 | one ascending pass with an index of representatives folds every exact duplicate into the least event equal to it |
| `CalendarIndex.DuplicateIndex.FindEquivalent` | sync.go:845-857 | looking into one bucket returns the least identifier that a scan of all events would, in both UID modes |
| `CalendarIndex.DuplicateIndex.Add` | sync.go:859-865 | the index then holds exactly the visible events with the new one |
| `CalendarIndex.DuplicateIndex.Remove` | sync.go:867-873 | the index then holds exactly the visible events without the removed one |
| `CalendarIndex.DuplicateIndex.Fill` | sync.go:837-843 | a new index holds exactly the given events |
| `CalendarIndex.EquivalentShareKey` | sync.go:796-833 | events that the comparers call equal always land in the same bucket |
| `CalendarIndex.Mutations.RecordUpsert` | state.go:685-691 | an upsert takes back a recorded delete of the same event, and touches nothing else in the batch |
| `CalendarIndex.Mutations.RecordDelete` | state.go:693-699 | a delete takes back a recorded upsert of the same event |
| `CalendarIndex.Mutations.RecordAlias` | state.go:701-707 | an alias upsert takes back a recorded alias delete |
| `CalendarIndex.Mutations.RecordAliasDelete` | state.go:709-715 | an alias delete takes back a recorded alias upsert |
| `CalendarLaws.AddKeepsSound` | sync.go:1024-1078 | an Add keeps events keyed by their own ServerID, no alias visible and every alias on a visible event |
| `CalendarLaws.ChangeKeepsSound` | sync.go:1083-1119 | a Change keeps the same invariant |
| `CalendarLaws.DeleteKeepsSound` | sync.go:1124-1178 | a Delete keeps the same invariant, also when it promotes an alias |
| `CalendarLaws.AddRefinesPlainStore` | sync.go:1024-1078 | seen as a map from remote identities to events, Add is a plain store, and it is nothing more exactly unless it rewrites the content of an event that others are folded into |
| `CalendarLaws.ChangeRefinesPlainStore` | sync.go:1083-1119 | the same for Change |
| `CalendarLaws.DeleteRefinesPlainStore` | sync.go:1124-1178 | Delete forgets exactly one remote identity; every other one keeps its content and its UID whichever becomes visible |
| `CalendarLaws.PruneRefinesPlainStore` | sync.go:969-1019 | pruning forgets exactly the pruned aliases |
| `CalendarLaws.LocalUpsertRefinesPlainStore` | state.go:874-886 | a local write stores the event, and drags along what is folded into it |
| `CalendarLaws.LocalDeleteRefinesPlainStore` | state.go:889-905 | a local delete forgets the event and every identity folded into it, and nothing else |
| `CalendarDeletes.DeletesErase` | sync.go:1124-1178 | a list of Deletes has the effect of erasing the set of its members in one go |
| `CalendarDeletes.DeletesCommute` | sync.go:1124-1178 | any two orders (and repetitions) of the same Deletes leave the same events and aliases |
| `CalendarDeletes.MeetingOutlivesIdentities` | sync.go:1140-1178 | a folded meeting stays visible exactly until its last remote identity is deleted; the canonical one shows it, else the least one left with its own UID |
| `CalendarReplay.ReplayPageShowsNothingNew` | sync.go:939-963 | a page judged a duplicate replay adds, removes and rewrites no visible event, apart from UIDs |
| `CalendarMarks.ReplayIsJudgedRight` | sync.go:939-963 | a page is judged a duplicate replay exactly if more is to come, it holds two Adds at least and nothing else, and every record reads as a visible event; a last page never is |
| `CalendarMarks.AddMarks` | sync.go:1024-1078 | after an Add, an alias for its identity has the record's UID, stands for an event with its content, and is marked exactly if the Add belongs to a replay or a marked alias is kept; no other alias changes |
| `CalendarMarks.PruningIsRight` | sync.go:969-1019 | on a touched event every stale marked alias goes; of the stale unmarked ones none goes if they are eight or fewer, else exactly eight stay and each sorts above each one pruned; identities of the page, untouched events and visible events lose nothing |
| `CalendarMarks.OnlyOldReserveStays` | sync.go:969-1078 | after any run of replay pages, one more leaves an event it touches, besides the identities it lists, only unmarked aliases that the event had at the start and no page listed; of these eight, or all if fewer |
| `CalendarMarks.FoldedIsForgotten` | sync.go:999-1078 | an identity that a replay page folds is gone after the next one that touches its event without listing it |
| `CalendarMeaning.SameContentIff` | sync.go:805-821 | two events have the same content exactly if no field but ServerID and UID differs |
| `CalendarMeaning.PageProgress` | sync.go:702-722 | a page counts as progress exactly if one of its records, in the order adds, changes, deletes, changes what is shown when its turn comes |
| `CalendarMeaning.PageInOrder` | sync.go:702-716 | what a page deletes is gone afterwards whatever it adds or changes; without deletes its last change reads as it says; with neither, its last add |
| `CalendarMeaning.DeleteLeavesTheOthers` | sync.go:1140-1178 | the other identities of a deleted event keep UID and mark, and the one that takes its place keeps its UID and shows the content |
| `CalendarReplay.LeastTwinIsAimed` | sync.go:939-1019 | whatever aliases a replay page adds to an event, the page also prunes that event, if no smaller visible event has its content: identities known before stay with their holder, unknown ones are looked up by content |
| `CalendarReplay.ReplayPageBoundsAliases` | sync.go:969-1019 | after a replay page every event one of its identities stands for keeps at most eight aliases beyond the page's own, if no smaller visible event has its content |
| `CalendarReplay.EndlessReplayIsBounded` | sync.go:969-1078 | over any run of replay pages the meetings stay, and an event whose content no smaller visible event has never has more aliases than at the start or one page and eight |
| `CalendarTwins.TwinCollectsAliases` | sync.go:939-1078 | a replay page of copies of an event that has a smaller twin and is the least with its UID changes no visible event, makes every one of its identities an alias of that event, and prunes none of them |
| `CalendarTwins.TwinGrowsForEver` | sync.go:939-1078 | from any cache with such an event, for every number n there is a run of n replay pages after which it has 2n more aliases |
| `CalendarTwins.RenameShadows` | sync.go:939-1078 | any event with a smaller twin can be made such an event by one replay page, which gives it a UID of its own |
| `CalendarTwins.AliasesStayBoundedIff` | sync.go:939-1078 | the aliases of a visible event stay within some bound over all runs of replay pages exactly if no smaller visible event has its content |
| `CalendarRepair.AddHidesOnlyReplays` | sync.go:1024-1078 | an unknown identity stays hidden exactly when a visible event has its non-empty UID and content, or the page is a replay and one has its content |
| `CalendarRepair.DedupeKeepsOneOfEach` | sync.go:879-903 | after the repair no two visible events with a non-empty UID are equal, and each folded one is an alias of its least duplicate |
| `CalendarRepair.DedupeIsSafeUnlessItStrands` | sync.go:894-898 | the repair keeps the invariant, and every remote identity reachable, exactly when no alias points at a folded event |
| `CalendarRepair.StrandedAliasExample` | sync.go:894-898 | a cache on which the repair strands an alias |
| `CalendarRepair.NormalizeRepairs` | state.go:240-254 | from any loaded maps, normalize leaves only aliases of visible events, none of them visible, and is idempotent |
| `CalendarRepair.NormalizeIsIdentityWhenMarked` | state.go:240-254 | on a sound cache normalize changes nothing exactly when no replay marker is missing |
| `CalendarMeaning.NormalizeLeaves` | state.go:240-254 | normalize leaves the events and exactly the aliases that stand for a visible event other than themselves, marked if they were or have a UID that is not the event's |
| `CalendarMeaning.DedupeFolds` | sync.go:879-903 | each event stays as it is or becomes an unmarked alias, under its own UID, of a visible event equal to it; it stays if it has no UID or no smaller event equals it |
| `EventLog.ReplayIsIdempotent` | state.go:803-847 | replaying a log over its own result changes nothing, for every mixture of batch lines and single-operation lines |
| `EventLog.RecordReplays` | state.go:811-845 | the four lists of a written line, replayed in order, amount to one simultaneous update of both maps |
| `EventLog.AgreementReplays` | state.go:811-845 | the implicit removals of replay are redundant as long as no identifier is both visible and an alias in memory |
| `EventLog.PageKeepsAgreement` | sync.go:685-715 | a whole page of adds, changes, deletes and pruning is recorded in the batch as it happened in memory |
| `CalendarStore.DiskState.AppendEventLog` | state.go:729-772 | one line holds the whole batch in sorted order; an empty batch writes nothing and succeeds; when nothing can be written the call fails and the log is as it was |
| `CalendarStore.DiskState.ReplayEventLog` | state.go:803-847 | the replay loops apply the entries of the log to the maps one after the other |
| `CalendarStore.DiskState.WriteEventsSnapshot` | state.go:313-327 | a written snapshot is the memory, and the log is emptied after it if that succeeds; a snapshot that cannot be written leaves both files alone |
| `CalendarStore.DiskState.NormalizeAliases` | state.go:240-254 | the loop over the aliases computes the specification of normalize |
| `CalendarStore.DiskState.Load` | state.go:97-219 | the calendar part of a load is snapshot, then log, then normalize; it fails exactly if the log is to be compacted and the snapshot cannot be written; whichever writes fail, a later load sees the same |
| `CalendarStore.DiskState.RepairOnStartup` | sync.go:908-922 | the repair at startup is the machine's step: memory without duplicates, a snapshot instead of a log line, and failure exactly if there was something to write that could not be written |
| `CalendarStore.DiskState.UpsertEvent` | state.go:874-886 | a CalDAV write changes memory and appends a batch of its own if the log can be written; it succeeds exactly if the log and the main file were written, and memory keeps the change either way |
| `CalendarStore.DiskState.RemoveEvent` | state.go:889-905 | a CalDAV delete takes the dependent aliases along, with the same two writes |
| `CalendarRun.SaveIsDurable` | state.go:863-868 | after a save, files reproduce memory exactly |
| `CalendarRun.CompactionAgrees` | state.go:850-859 | compaction loses nothing, also if it is cut short between snapshot and truncation and with changes pending |
| `CalendarRun.CrashFallsBackToLastSave` | sync.go:719-727 | a crash falls back to normalize of the memory at the last save, however many pages came since |
| `CalendarRun.StepAgreesIffHarmless` | sync.go:660-727 | every step of every run keeps disk, pending batch and memory in agreement exactly when a condition on the step and the batch holds; pages, saves, repair and compaction always meet it |
| `CalendarRun.RunsAgree` | sync.go:660-727 | after any run of such steps one save makes the files reproduce memory, and a restart gives normalize of it |
| `CalendarRun.InterleavedWriteIsLost` | state.go:874-886 | a CalDAV write between two pages is undone at restart by an older change to the same event that was still pending |
| `CalendarRun.StartupRepairAgrees` | sync.go:908-922 | the repair at startup, kept by a snapshot only, survives a restart exactly if the log was emptied or named no folded event |
| `CalendarRetry.PagesRecord` | sync.go:685-715 | what the batch names after any pages is what it named before and what the pages write, which depends on pages and cache only |
| `CalendarRetry.SavingSetsRight` | state.go:803-847 | saving a batch over files that differ from memory sets right exactly the identifiers it rewrites, and no others |
| `CalendarRetry.RetriedRoundAgreesIff` | sync.go:671-719 | for every state, all pages before a Status 5 reset and all pages pulled and saved after it: files and memory agree in the end exactly if every identifier on which the dropped pages had moved memory away from the files is written again |
| `CalendarRetry.RepeatsRepairNothing` | sync.go:1033-1037 | a re-pull of events that are shown as they are, over any pages and saves, writes no event and no alias but those that pages judged replays prune; so the round ends in agreement exactly if the events of memory are those of the files and each alias on which they differ is pruned |
| `CalendarRetry.RetryForgetsEvent` | sync.go:671-681 | the smallest failing case: one new event, pulled, dropped at the reset and pulled again, is in memory and in no file |
| `LogFile.TornAppendIsAllOrNothing` | state.go:811-818 | a line cut off anywhere is read as a whole batch or not at all, and nothing before it is lost |
| `LogFile.TornAppendRestores` | state.go:803-847 | so a restart after a crash in an append sees the cache before the batch or after it |
| `LogFile.AppendIsReadIffTailIsBlank` | state.go:729-772 | a later append is read after everything else exactly if the file ended in a complete line or in white space; else it is lost together with the torn line |
| `CalendarText.MoveIsStep` | state.go:729-847 | over the text of the log, with appends that stop anywhere, every step does what one step of the machine does: an append counts if it starts a line and all of it but the newline is there; text it joins is forgotten first |
| `CalendarText.TextRunsAreRuns` | state.go:729-847 | so every run over the text, unless a write stops just before a newline, is a run of the machine in which torn appends and those that land on them never happened |
| `CalendarText.MoveAgreesIffHarmless` | state.go:729-847 | a step keeps what a restart finds in agreement with memory exactly if that counted step is harmless: for a successful save behind a torn line, if there was nothing to save |
| `CalendarText.TornSaveTakesTheNext` | state.go:764-771 | a save that stops inside its line, a page, and a save that succeeds leave a restart with the files as they were before both |
| `CalendarText.LineAtNewlineIsLostLater` | state.go:764-847 | a line cut off just before its newline is read until the next append; then both are gone |
| `CalendarSync.SyncEngine.ApplyPage` | sync.go:685-717 | the page loop applies judgement, adds, changes, deletes and pruning in that order, and reports progress |
| `CalendarSync.SyncEngine.Repair` | sync.go:629-650 | the repair that opens a round is logged in a batch of its own, and the round ends if that cannot be written |
| `CalendarSync.SyncEngine.PullPages` | sync.go:652-751 | the page loop, with client writes between the pages and writes that may fail, call by call does what the round's specification says: the run, the number of the page, the idle pages, the reset and the outcome |
| `CalendarSync.SyncEngine.SyncCalendarOnce` | sync.go:626-751 | a round ends within 200 server calls, 100 without a reset, and is a run of the machine's steps from the state it began in, whose steps, saves apart, are the repair and then what was written and received, call by call: if these are harmless the files reproduce memory, and without reset, error or client writes they are, and memory is the pages applied one after the other |
| `CalendarRound.RoundStands` | sync.go:652-751 | however the server answers, clients write in between and writes fail: a round does exactly what was heard and written, in order; it saves after every tenth page and at its end; it goes on while pages have more, at most a hundred since the last reset; and it stops as stalled at the third page in a row that changes nothing |
| `CalendarRound.SmoothIsSteady` | sync.go:652-751 | a round without reset, error and client write leaves the cache that its pages one after the other leave, and no step of it is harmful |
| `Mail.MergeAttachmentLists` | mime.go:256-275 | the loop with its map from reference to position merges each fetched attachment into the last one with its reference, or appends it |
| `Mail.MergedAttachmentsExtend` | mime.go:256-302 | merging fetched attachments moves, drops or duplicates none, loses no known field, and every fetched reference is there afterwards |
| `MailAttachments.LastCarriedWins` | mime.go:256-302 | for every reference, each field of the merged attachment is that of the last fetched one with the reference that carries it, a size only if positive, else that of the one it starts from; it is inline if any of them is |
| `MailAttachments.UnreferencedAreAppended` | mime.go:256-275 | attachments without a reference are appended as they are, in order |
| `MailStore.MergeCollected` | sync.go:466-505 | the merge closure computes the collected merge and its invalidation list |
| `MailMerge.BatchedMergeIsFaithful` | sync.go:466-505 | adds, then changes, then deletes give the same items in the same display order as the operations as they came, if no identifier sees them out of order |
| `MailMerge.CollectedRoundIsFaithful` | sync.go:421-505 | a round collected over many pages equals merging every page when it arrives |
| `MailMerge.BatchedMergeKeepsIDsIff` | sync.go:466-505 | for any round at all, the batched merge keeps the right set of messages exactly when every deleted message is last heard of in a delete |
| `MailOrder.BatchedMergeIsFaithfulIff` | sync.go:466-505 | for any round at all, the batched merge leaves the same messages with the same contents in the same order as the operations as they came, exactly when deleted messages are last heard of in a delete, changes before a message's last add leave nothing behind, and new messages are added in the order they are heard of |
| `MailOrder.CollectedRoundIsFaithfulIff` | sync.go:421-505 | the same three conditions on the pages are exact for merging a round at its end against merging each page as it arrives |
| `MailFields.ChangesSettleIffFieldsDo` | sync.go:530-541 | the condition on contents, field by field: changes before a message's last add leave nothing behind exactly if each field is carried by a later change, by none, or set to what the add has, and the attachments merge to the same list |
| `MailOrder.UnknownChangeSwaps` | sync.go:466-505 | a change of an unknown message followed by a new message is listed the other way round by the batch |
| `MailOrder.OldChangeShows` | sync.go:466-505 | a change followed by a new version of the same message: the batch shows the old change's read mark |
| `MailMerge.MergedStaysDistinct` | sync.go:466-505 | a merge never lists a message twice, whatever the server sent |
| `MailMerge.InvalidationCoversEveryChange` | sync.go:466-505 | a message outside the invalidation list neither appeared nor disappeared and is equal for rendering |
| `MailInvalidation.InvalidatedIff` | sync.go:466-509 | a rendering is thrown away exactly if its message was added or deleted, or one of its changes, where it is applied, altered what is shown |
| `MailInvalidation.MarksKeepRenderings` | sync.go:529-556 | changes that carry only marks and other fields no message shows throw no rendering away, unless the item lists attachments without saying so |
| `MailStore.MailState.SyncMailOnce` | sync.go:412-512 | a round makes at most 1000 calls, 500 without a reset, writes the main file at a key reset, merges exactly the pages received since it in one assignment of UIDs, and invalidates exactly the changed messages if the result was written |
| `MailStore.MailState.AssignUIDs` | state.go:402-462 | the loops compute the specification of the assignment for one folder and leave the others alone |
| `MailStore.MailState.Install` | state.go:363-371 | main file before shard, the shard only if the main file was written |
| `MailStore.MailState.AddMovedItems` | state.go:614-624 | moved messages go behind those already there, through the same two writes |
| `MailStore.MailState.RemoveItems` | state.go:587-607 | removed messages leave the list and lose their Deleted marks; the UID list stays until the next assignment |
| `Uids.AssignLaws` | state.go:402-462 | the result lists the same messages in strictly increasing UID order, matches the UID list one for one, keeps old UIDs and gives new ones above all there were, even with NextUID fallen behind |
| `Uids.NewUidsInArrivalOrder` | state.go:425-441 | new messages are listed in the order in which they arrived |
| `Uids.ArrivalsDoNotRenumber` | state.go:402-462 | messages already in UID order keep their sequence numbers when others arrive behind them |
| `UidSteps.NewUidsAreConsecutive` | state.go:425-441 | the new messages take exactly the numbers from the old counter to the new one, without a gap |
| `UidSteps.CounterIsLeast` | state.go:408-423 | the counter starts from the least number that is not below the recorded one, or 1, and above every number in the list |
| `UidSteps.FirstUidIsOne` | state.go:402-417 | the first message of a folder has UID 1, and its UIDVALIDITY is the time it got it |
| `UidSteps.NewListIsShown` | state.go:363-371 | a process that goes on shows the new list under its UIDs, whatever could be written |
| `UidSteps.RepeatedRoundTakesNewUids` | state.go:363-371 | the messages of a round that was lost between the writes get other numbers the next time |
| `UidSteps.RemovalTakesOnlyTheNamed` | state.go:587-607 | a removal takes exactly the named messages and keeps the order of the others and the UID list |
| `UidSteps.WrittenSurvives` | state.go:363-371 | with both files written, at once or by later saves in either order, a restart finds what memory held |
| `UidSteps.HalfWrittenRestarts` | state.go:363-371 | after a death between the writes, or after a shard that was not written, a restart finds the old list and the new counter; before the first write, the old files |
| `Uids.StepKeepsSafe` | state.go:363-371 | every assignment, removal, save, failed shard write, crash between the writes and reload keeps memory no further than the main file, and every shown UID below its counter |
| `Uids.UidsAreNeverReused` | state.go:402-462 | over every run in which the main file can be written, no UID is ever shown for two messages and UIDVALIDITY never changes (section 2.3.1.1 of RFC 9051) |
| `Uids.UnwrittenMainReusesUid` | state.go:363-371 | if the main file cannot be written and the process goes on and then dies, the next message gets the same UID |
| `UidCrashes.StepKeepsSane` | state.go:363-371 | also with main files that cannot be written: every step keeps the list, the files and the UIDs shown consistent, if a crash comes only while the files cover what was shown |
| `UidCrashes.FineRunsNeverReuse` | state.go:402-462 | so over every such run no UID is shown for two messages under one UIDVALIDITY |
| `UidCrashes.WritingMainCovers` | state.go:363-371 | the next write of the main file, of any kind, makes a failed one good |
| `UidCrashes.UncoveredCrashReuses` | state.go:402-462 | after a crash that the files do not cover, some arrivals get a UID that was shown for another message |
| `UidCrashes.CrashIsHarmlessIffCovered` | state.go:402-462 | a crash is harmless in all runs that follow exactly if the main file and the shard put every UID shown under their UIDVALIDITY below the next free one |
| `UidCrashes.WrittenValidityStays` | state.go:402-462 | once the main file holds a UIDVALIDITY, no step changes it |
| `UidCrashes.FirstMainWriteLost` | state.go:402-462 | if the very first main write fails and the process dies, UIDVALIDITY is drawn anew and UID 1 is given again; that is a reuse under one UIDVALIDITY exactly if the clock reads the same |
| `Flights.FlightGroup.Begin` | cache.go:37-51 | under the mutex a caller joins the running call of its key or becomes the leader of a new one |
| `Flights.FlightGroup.Complete` | cache.go:52-65 | the deferred clean-up forgets the key, stores the result and closes the channel |
| `Flights.RunsKeepInv` | cache.go:37-65 | in every interleaving a call is in the map exactly while its channel is open, every open call has its leader, and the gate counts the running sync bodies |
| `Flights.ExclusionHolds` | sync.go:219-241 | at most one leader runs per key, at most four sync bodies run, and releasing a slot never blocks |
| `Flights.JoinersGetTheirLeadersResult` | cache.go:37-65 | whoever joined a call returns its leader's result, however much later, or its own context's error |
| `FlightLaws.SlotIsFreeIff` | sync.go:219-241 | in every interleaving a leader that waits for a slot can go on exactly if fewer than four sync bodies run |
| `FlightLaws.JoinsIffInFlight` | cache.go:37-51 | a caller joins the running flight of its key if there is one and leads a new one if not; mail and calendar flights first wait for a slot |
| `FlightLaws.LeadersKeepTheirResult` | cache.go:37-65 | a leader returns what its function ended with, nothing after a panic, its context's error if it gave up waiting, whatever others do in between; its slot is free at once |
| `Flights.SomeoneCanGoOn` | mime_engine.go:316-396 | while any caller is active, some caller can go on without a context ending, also while full messages wait for the flights of their attachments |
| `Flights.OwnFlightNeverEnds` | cache.go:37-65 | the order of depths is needed: a body that joined its own flight would never end |
| `Breaker.TransientBackoff.TrackResult` | sync.go:180-203 | success closes the breaker, a transient failure counts once per open period, other errors leave it alone |
| `Breaker.FailuresAreSpreadOut` | sync.go:180-203 | the n-th failure is counted only after the first n-1 steps have passed since the first one |
| `Breaker.BurstsCountOnce` | sync.go:180-203 | a burst of failures while the breaker is open changes nothing |
| `Breaker.RequestsResume` | sync.go:205-215 | requests go out again at the latest one last step after the latest result |
| `Breaker.WaitsGrow` | sync.go:180-203 | whatever happened before, a failure outside an open period blocks requests for 5 seconds if it is the first since the last success, then 30, then 120, and 300 from the fourth on |
| `Breaker.FourWaits` | sync.go:180-203 | five failures, each as soon as requests go out again: 5, 30, 120, 300 and 300 seconds |
| `Breaker.SuccessBeginsAgain` | sync.go:180-203 | after a success requests go out at once and waits begin with the shortest |
| `Breaker.UnrelatedIsIgnored` | sync.go:180-203 | errors of other kinds change nothing, wherever they come in a history |
| `Recurrence.EasRecurrenceToRRULE` | caldavd.go:416-493 | prints the parts in order, FREQ first, leaving out what a rule does not have |
| `Recurrence.RruleToEASRecurrence` | caldav_write.go:404-464 | splits, cuts, trims and upper-cases the parts, the last of a key winning, and interprets them |
| `Recurrence.ReadByDay` | caldav_write.go:468-492 | the day list gives its bits and the week of its last readable position |
| `Recurrence.StampParses` | caldav_write.go:423-429 | every instant of the years 0 to 9999 survives printing and parsing |
| `Recurrence.DateEndsRule` | caldav_write.go:423-429 | a rule whose UNTIL is eight digits ends at the first second of that day in UTC, or has no end if they are no date |
| `Recurrence.DigitsOfStamp` | caldavd.go:416-493 | a printed end shows year, month and day, T, the time and Z, most significant digit first |
| `RecurrenceTables.Weekdays` | caldavd.go:416-493 | the days of a mask are SU to SA with bits 1 to 64, for printing and parsing |
| `RecurrenceTables.DayListText` | caldavd.go:416-493 | a day list names the days of the mask from Sunday to Saturday, each behind the position |
| `RecurrenceTables.RuleText` | caldavd.go:416-493 | the text of each kind of record, part by part in the order of the source |
| `RecurrenceTables.ParsedDefaults` | caldav_write.go:404-464 | a parsed rule is Gregorian without leap month and first day, and sets nothing its kind has no use for |
| `TextLaws.SplitLosesNothing` | caldav_write.go:406-411 | the pieces of a text hold no separator and joined by it give the text back |
| `TextLaws.CutIsAtTheFirst` | caldav_write.go:406-411 | a part is cut at its first equals sign, and only if it has one |
| `TextLaws.TrimTakesOuterBlanks` | caldav_write.go:406-411 | trimming takes white space from both ends, all of it, and nothing else |
| `TextLaws.SignedNumbers` | caldav_write.go:414-419 | a number may have a sign, of which minus negates and plus does nothing |
| `Recurrence.ByDayReads` | caldav_write.go:468-492 | a printed day list gives back the seven low bits of the mask and its week, for every mask and week |
| `RecurrenceTables.MaskNamesDays` | caldav_write.go:468-492 | the mask read from any list, well-formed or not, has exactly the days some token names |
| `RecurrenceTables.LastWeekCounts` | caldav_write.go:468-492 | the week read is that of the last token with a position of -1 or 1 to 4, whether its day is one or not, else none |
| `Recurrence.ParsePrintIsCanon` | caldavd.go:416-493 | for every record at all: what comes back when its RRULE is parsed |
| `Recurrence.ParsePrintIffNormalForm` | caldav_write.go:402-404 | parser and printer are inverse on exactly the records in normal form |
| `Recurrence.PrintedTextIsStable` | caldavd.go:416-493 | a printed rule that parses is printed the same again |
| `Recurrence.ClientRuleSettles` | caldav_write.go:404-464 | a client's rule is served back exactly unless it goes by weekday and names none, and then never changes again |
| `RecurrenceMeaning.MeaningKeptIffExpressible` | caldav_write.go:400-464 | of the rules clients write and the parser accepts, exactly those are served back with the same meaning that a record can express: known parts only, a positive interval, at most one end, one month, one day of the month, or days in one position |
| `RecurrenceMeaning.ExpressibleIsAccepted` | caldav_write.go:400-464 | and no rule is refused that a record can express |
| `RecurrenceMeaning.MixedPositionsAreMoved` | caldav_write.go:468-492 | days in two positions are accepted and all read in the last one |
| `Base64.WriteBase64` | mime.go:572-586 | lines of at most 76 columns, and one empty line for no data |
| `Base64.WriteBase64Placeholder` | mime.go:588-603 | the same lines for a declared size |
| `Base64.DecodeBase64Chunk` | mime.go:139-152 | drops white space and decodes strictly |
| `Base64.PlaceholderHasPayloadSize` | mime.go:588-603 | placeholder and real lines for the same size take the same number of bytes |
| `Base64.DecodeChunkInvertsLines` | mime.go:139-152 | decoding the written lines gives back every byte |
| `Base64Text.AlphabetIsStandard` | mime.go:572-586 | digits are the letters of the standard alphabet in their order, and reading a character gives its place |
| `Base64Text.GroupsAreNumbers` | mime.go:572-586 | four digits stand for the number three bytes make; missing bytes are zero bits and padding, as in section 4 of RFC 4648 |
| `Base64Text.GroupAt` | mime.go:572-586 | the digits 4k to 4k + 3 of an encoding are the first four of the encoding of the data from byte 3k on |
| `Base64Text.AcceptsOnlyGroups` | mime.go:139-152 | only whole groups are accepted, with padding only in the last two places |
| `Base64Text.DigitIsInItsLine` | mime.go:572-586 | every digit is in its line of 76 columns |
| `Base64.DeclaredSizeDecides` | mime.go:159-181 | with an exact declared size, encoded and plain data are always told apart, whatever the plain data looks like |
| `Base64.UnknownSizeDecodesLongData` | mime.go:177-181 | without a declared size, encoded data is recognised exactly from ten bytes on |
| `Base64Text.MisfittingSizeDecodesLongData` | mime.go:159-181 | with a declared size that fits neither reading ten bytes decide; what is no base64 is left as it is |
| `Download.DownloadAttachment` | mime_engine.go:616-652 | the loop takes the replies one by one and asks for each range where the bytes so far end |
| `Download.RangedReturnsTheContent` | mime_engine.go:631-651 | if each ranged reply holds a non-empty prefix of its range, the download cannot break, is over after at most one reply a byte, and returns the content up to the declared size |
| `Download.AsksForWholeChunks` | mime_engine.go:626-635 | every request starts where the bytes so far end, asks for 4 MiB at most and not beyond the declared size, and for as much as that allows |
| `Download.IgnoredRangeReturnsTheContent` | mime_engine.go:631-634 | a server that ignores the range and sends everything, encoded or plain, has its content returned |
| `Download.StallsIffOnlyWhiteSpace` | mime_engine.go:636-649 | a reply leaves the loop where it was exactly if it has data that is all white space |
| `Download.BlankRepliesNeverFinish` | mime_engine.go:631-651 | so a server that sends only such replies keeps the loop going for ever |
| `Mime.WriteTo` | mime.go:461-541 | the recursive loop writes the tree as the specification renders it, or fails with the first payload it cannot have |
| `MimeReading.HeadReads` | mime.go:461-484 | read line by line up to the first empty line, the header of an entity is its five fields, absent ones absent, whatever follows |
| `MimeReading.MultipartReads` | mime.go:461-541 | cut at its delimiter lines, a rendered multipart gives back the renderings of its parts byte for byte, if no line of a part is a delimiter |
| `MimeReading.AttachmentReads` | mime.go:461-541 | a rendered attachment reads as its fields and lines that decode to its data |
| `MimeReading.TextEntityReads` | mime.go:461-541 | a rendered text reads as its fields and the text |
| `Mime.FindEntity` | mime.go:543-555 | the loop follows the path, and the only part of a message without parts is number 1 |
| `MessageSources.SectionNumbers` | mime.go:543-555 | parts are numbered from one, level by level; a message without parts is its own part one and has no other |
| `Mime.RenderedLength` | mime.go:461-541 | a tree can be written exactly if all its payloads can be had, and then takes a fixed number of bytes besides them |
| `Mime.EstimateIsOffByPayloads` | mime.go:461-541 | for every tree, the estimate is off by the sum of what each payload is off |
| `Mime.EstimateIsExact` | mime_engine.go:246-270 | with accurate sizes the estimate has exactly the length of the full message |
| `Mime.RenderDependsOnOwnAttachments` | mime.go:461-541 | a subtree's bytes depend only on the attachments inside it |
| `Mime.RenderContainsEntity` | mime.go:461-555 | a rendered message is the bytes before an entity, the entity's own rendering, and the bytes after it |
| `Mime.SectionHasFullBytes` | mime_engine.go:272-306 | the message rendered for a section holds that part with the bytes it has in the full message, and needs no attachment outside it |
| `Mime.FullContainsSection` | mime_engine.go:272-306 | the full message holds the same bytes for that part |
| `Mime.HeadersNeedNoAttachment` | mime_engine.go:277-286 | sections without payloads download nothing and cannot fail |
| `Message.BuildMIMEEntity` | mime.go:363-417 | the loop sorts the attachments into inline and regular ones and nests alternative, related and mixed |
| `MessageReading.MessageReads` | mime.go:326-361 | a written message reads as From, To, Cc, Reply-To, Subject, Date and the others from the fields of its item they belong to, then the fields and bytes of its content |
| `MessageReading.LeavesInOrder` | mime.go:363-417 | the leaves of the tree are the plain text if there is one, the text, the attachments shown inside the body, then the others, each side in the order of the item |
| `MessageReading.KindsOfMultipart` | mime.go:363-417 | mixed is outside exactly if there are other attachments, related inside it exactly if some are in the body, alternative exactly if there are two texts |
| `Message.BuiltHoldsEveryAttachment` | mime.go:363-417 | the tree holds every attachment exactly once, with its declared size |
| `Message.EstimatedSizeIsExact` | mime_engine.go:246-270 | the size reported without downloading is the size of the message a full fetch returns, if declared sizes fit and unknown ones resolve |
| `Message.EqualContentSameBytes` | mime.go:326-417 | items equal for rendering, with the date in the same zone, give the same bytes under every rendering |
| `Message.SameBytesIffSameDate` | sync.go:543-556 | items the comparison calls equal give the same bytes exactly if their dates are printed the same |
| `Message.SameSummarySameSource` | mime.go:61-126 | nothing the fetch of a message looks at is missing from the comparison |
| `Message.CompleteSourcesAreWhole` | mime.go:61-126 | a message that may be cached shows no body the server cut short |
| `MessageSources.RawIsServed` | mime.go:61-65 | a usable MIME source is served as it came and may be cached, whatever else arrives |
| `MessageSources.FirstBodyIsShown` | mime.go:61-126 | without usable MIME the first text there is of HTML reply, summary and plain reply is shown, with its own type and truncation |
| `MessageSources.TwoVersionsIff` | mime.go:61-126 | the message shows two versions of its text, plain first, exactly if the shown one is HTML and a plain one was sent |
| `MessageSources.CachedIff` | mime.go:61-126 | a rebuilt message may be cached exactly if every reply it asked for arrived whole, no body was lost and announced attachments are known |
| `Message.UninvalidatedMessageIsUnchanged` | sync.go:466-505 | after a mail merge every message that was not invalidated still has the bytes it had, if its date is in the same zone |
| `MessageCache.StepKeepsInvIffTimely` | mime_engine.go:79-134 | with any number of fetches and merges interleaved, a step keeps the cached message reading as the summary does, or about to be removed, exactly if no fetch caches what it read before a change whose removal is over, and no unwritten merge changes a cached message |
| `MessageCache.TimelyRunsAreFresh` | mime_engine.go:79-134 | so over every run of such steps the cache serves the present message whenever no removal is due |
| `MessageCache.RemovalIsEnoughIff` | sync.go:505-509 | after a removal the cache stays fresh, whatever fetches do, exactly if none in flight has read a summary that reads otherwise |
| `MessageCache.OvertakenFetchIsCached` | mime_engine.go:104-134 | the failing run: a fetch reads the summary, a merge changes it and removes the cached message, the fetch caches the old one |
| `MessageCache.StaleIsServedOn` | mime_engine.go:79-102 | it is then served until the next merge that changes the message |
| `MessageCache.FreshSourceIsCurrent` | mime.go:61-126 | a fresh cached source is the one the same replies would make of the present summary, if its date is in the same zone |
| `Folders.Resolver.ResolveFolder` | folders.go:87-113 | the memoised recursion ends for every parent graph and computes its specification |
| `Folders.ImapFolderNames` | folders.go:85-123 | the walk over all folders, in any order |
| `FolderNames.NamesArePaths` | folders.go:87-123 | in any order every mail folder walked gets a name ending in its own segment, and it is the slash-joined path if no cycle of user folders is above it |
| `FolderNames.OrderDoesNotMatter` | folders.go:115-121 | two walks name every folder alike whose parents end, or end in a folder that is its own parent |
| `FolderNames.DependsOnOrderIffReachesCycle` | folders.go:85-123 | two walks over all folders can name a folder differently exactly when following user-folder parents from it reaches a cycle of two or more |
| `FolderNames.CycleGivesTwoNames` | folders.go:99-113 | below such a cycle, walks that enter it at two neighbouring folders do give two names |
| `Folders.CycleDependsOnOrder` | folders.go:99-113 | the smallest case: two folders that are each other's parents, walked in both orders |

## Left out

- Uids.UidsAreNeverReused: counters are unbounded, so it speaks of fewer than 2^32 messages per folder, and item ServerIDs are distinct, which addMovedItems does not check; runs with main files that could not be written are the subject of UidCrashes.
- UidCrashes.FineRunsNeverReuse: a UIDVALIDITY drawn from the clock is taken to differ from those drawn before; the file does not remember one it never held.
- CalendarTwins.AliasesStayBoundedIff: a page judged a replay has two records at least, so window sizes below two are left out; they allow no such page.
- CalendarText.TextRunsAreRuns: takes from JSON that a begun encoding decodes to nothing wherever it stands.
- CalendarStore.DiskState.AppendEventLog: a write either happens or does not; one that stops inside the line is a step of CalendarText.
- CalendarSync.SyncEngine.SyncCalendarOnce: which writes work and what clients write between pages are parameters; a log write that fails leaves the log as it was, and lines torn by a failing write are the subject of CalendarText. The SyncKey is not part of it.
- CalendarStore.DiskState.Load: the main file, the mail shards, the migration of old state and the backup of an unreadable log are not part of this model.
- CalendarRound.RoundStands: which backoff a stalled round starts is not part of it.
- MimeReading.MultipartReads: speaks of header values without line breaks and of boundaries no line of a part looks like; the boundary is a hash, and that no text holds it is not proved.
- Download.AsksForWholeChunks: an attachment of up to 4 MiB is asked for as a whole, without a range.
- MailMerge.InvalidationCoversEveryChange: when the merged list cannot be written the code returns before it invalidates, so the message cache keeps the old bytes.
- MessageCache.TimelyRunsAreFresh: the raw message a server sends is taken as it is; removal of the cached files is one step.
- MailFields.ChangesSettleIffFieldsDo: speaks of messages with a ServerID; attachments are compared as merged lists.
- LogFile.TornAppendIsAllOrNothing: the JSON encoding is any codec whose lines hold no newline, decode to what was encoded and have no decodable proper prefix.
- LogFile.AppendIsReadIffTailIsBlank: takes from JSON that white space in front of an object is skipped and that a line with other text in front does not decode.
- MailStore.MailState.SyncMailOnce: items are put into UID order by a stable sort; sort.Slice may order equal UIDs differently, which needs a list with a ServerID twice, as addMovedItems could make.
- FolderNames.DependsOnOrderIffReachesCycle: segments hold no slash, as those the code makes.
- Recurrence.StampParses: instants are whole seconds of the years 0 to 9999 in UTC; fractional seconds and one-digit hours, which Go's parser also takes, are not part of this model, nor is the range check of strconv.Atoi.
- Recurrence.RruleToEASRecurrence: trimming and upper-casing are those of ASCII.
- RecurrenceMeaning.MeaningKeptIffExpressible: parts with values the parser cannot read count as said in their own text; lists of several months or days of the month are such values.
- Message.BuildMIMEEntity: address formatting, encoded words, quoted-printable, boundaries, file names and media types are opaque functions of the fields they read.
- Mime.SectionHasFullBytes: cutting the section out of the rendered message is the IMAP library's and not part of this model.
- FolderNames.NamesArePaths: segments are given; the suffix that tells siblings with the same name apart is a hash, and names are not unique in general.
- Flights.SomeoneCanGoOn: that somebody can go on is proved, not that the Go scheduler is fair; a body waits for at most one flight at a time.
- Calendar events are compared by value: reflect.DeepEqual on nil and empty slices, and on times with the same instant in another zone, is not told apart further.
- Files are values that are replaced atomically; directory syncs, permissions, the migration of old state and shard file names are not part of this model.
- SyncKeys, the policy key, backoff between rounds, jitter, pollers, logging and clocks, except where a clock value is a parameter.
- The ActiveSync client, HTTP, IMAP, SMTP and CalDAV sessions, iCalendar text other than recurrence rules, Digest authentication and SEARCH.
- BODYSTRUCTURE parsing, cache pruning and attachment backoff: they would add easy members only.
