# Verified models of the Streamsy examples and kernels

This project models the stateful cores of the repository in Dafny and proves what they are for. Four groups
of code are modelled, and every main result is a statement over all inputs or all runs.

**Incremental views (bugsy).** `tracker` receives a slice of five inputs, rebuilds only the board cards and
label counts that the slice touches, and emits the difference. `BugsyTracker.MapAccumBatch` is that loop;
its contract says that it emits exactly what rebuilding every row before and after and comparing them all
would emit. `BugsyRuns` then proves that replaying the outputs always gives the rebuilt tables, and that the
places where the streams are cut into units do not matter. `BugsyMeaning` says what the rows mean in terms
of the events alone, `BugsyPublished` what a reader's cards, labels, counts, names, totals and feed are
after any units, in terms of the five streams alone. `BugsySql` compares the same inputs handled entry by
entry in SQL.

**Folder owner and sync mirror (folder-sync).** `FolderMessages` gives a message stream its meaning,
`FolderView` and `FolderStore` model the owner's fold, its bounded retry memory and its commit and delete
decisions, `FolderAnswers` says what each request does to the log and is answered, and `Decide` runs those
decisions under any interleaving. `MirrorModel` holds one function for each gate section of the sync mirror,
`MirrorState` the object that carries them out step by step, `MirrorSections` what each section does in
terms of the mirror's tables and disk alone, `MirrorRuns` the state machine of user edits, other writers,
pulls, deliveries, rejections, lost answers and crashes, and `MirrorSafety` and `MirrorTheorems` what every
run keeps. `Pull` and `PullState` model the pull loops. `Replica` and `SearchIndex` are two rewriters of the
same stream.

**Projection kernel and outbox (packages).** `Projection` has the paged readers (`current`, `decide`,
`reproduce`) as loops over a stream that other writers extend between calls. `Decide` is the state machine
of any number of deciders and checkpoint writers, `DecideRaces` says who loses. `Outbox`, `OutboxRuns` and `OutboxStore` model the store,
runs of drains and enqueues, and the drain loop; `Backoff` the retry deadline.

**Two stand-alone cores.** `IssueTracker` proves the work-in-progress limit over every log, `IssueDecisions`
what each command writes and answers, and `Excerpts` that the greedy excerpt matcher is complete.

## What the models assume

- The stream engine keeps three promises: a log only grows, a read returns a contiguous page that is empty
  only at the tail, and an append with an expected offset lands exactly when that offset is the tail. Offsets
  are numbers of entries; `-1` is its own cursor in the pull loops.
- A JavaScript `Map` is a sequence of pairs in insertion order (`JsMap`). A SQL statement is one update.
- Hashes are opaque names of content and codecs lose nothing. Clock readings are arbitrary integers.
- A gate section of the mirror is one step; the user edits the disk between steps. An accepted push puts
  its content into the server's history.
- Catalog changes of bugsy are keyed by the id of their row and file changes by the path of their value, which
  is the contract of those streams.

## Where code and documentation disagree

- The excerpt matcher's documentation says that an excerpt still matches when all of it is shifted left by one
  amount. The code tries only indents that some source line has. `Excerpts.EnoughExactlyWhenDedented` proves
  that this is enough in every source exactly when some excerpt line has no indentation (or nothing is left
  to match), and `Excerpts.IndentedExcerptMissed` gives a source for every other excerpt.
- The mirror keeps an edit that it would replace, but `observe` passes over scratch paths while the reset
  branch of `pullFolder` installs them. `MirrorTheorems.SafeExactlyWhenWatched` proves that overwritten content
  can be lost exactly at scratch paths of writable folders.
- `createIssue` refuses an `in_progress` create in a full project even when it reuses the id of an issue that
  is in progress there already and so would not raise the count: `IssueTracker.CreateRefusedWhen` says exactly
  when, and `IssueTracker.RecreateIsRefused` is a run from the seed.
- The SQL projection keeps the issue and label that a membership id was first used for and the tracker takes
  those of the newest event. The schemas let an event carry any workspace; the tables key their rows by it and
  the tracker does not look at it. `BugsySql.SameMembershipsIffFixed` and `BugsySql.SameIssuesIffOwn` prove
  exactly when the two agree. `BugsySql.DottedIdsCollide`, `BugsySql.ForeignLabel` and `BugsySql.ForeignIssue`
  are inputs on which they differ; the repository's own publisher writes the workspace of the stream.
- Per-partition order holds for names that are drained in order only: `OutboxRuns.UnorderedDrainsMayOvertake` is
  a run of an unordered drain that settles a later entry first.

## Model

| member | source | states |
|---|---|---|
| BugsyDomain.FoldIssue | examples/bugsy/domain/issue.ts:108-133 | sequences never go back; a changed row carries the event's sequence; only a create makes a row; ids stay (the columns: `BugsyMeaning.IssueRowMeans`) |
| BugsyMeaning.IssueRowMeans | examples/bugsy/domain/issue.ts:108-133 | after any events status and update time are those of the last event that counts, title, project and workspace those of the last create, the assignee that of the last assignment behind that create, else none; there is a row exactly for the created issues |
| BugsyMeaning.FeedIsTaken | examples/bugsy/server/outputs.ts:107-115 | the feed carries exactly the events that count: the highest sequence of their issue so far, and a create came first |
| BugsyMeaning.MembershipRowMeans | examples/bugsy/server/outputs.ts:117-138 | a membership row repeats every column of the event with the highest sequence of its id, and is attached exactly when that event attaches |
| BugsyMeaning.CatalogRowMeans | examples/bugsy/server/outputs.ts:51-69 | a catalog row is the last value of its key since the last reset, unless the key was deleted |
| BugsyMeaning.FaultIsForeign | examples/bugsy/server/catalog.ts:8-20 | the reported mismatch is the first value that names another workspace, with its key and that workspace |
| BugsyMeaning.AcceptedUnit | examples/bugsy/server/outputs.ts:140-149 | a unit is accepted exactly when every project, user and label in it names the workspace |
| BugsyDomain.AcceptedConcat | examples/bugsy/server/outputs.ts:107-115 | cutting the issue events anywhere gives the same rows and the same transition feed |
| BugsyOutputs.Group | examples/bugsy/domain/outputs.ts:61-73 | filling buckets row by row gives, for each key, exactly its rows in row order |
| BugsyOutputs.IndexWorkspace | examples/bugsy/domain/outputs.ts:76-94 | the eight indexes are those of the specification that cards and counts are defined on |
| BugsyOutputs.CardLabels | examples/bugsy/domain/outputs.ts:98-107 | a card's labels are sorted, and each stands there once for every membership row that is attached and has this issue and label |
| BugsyOutputs.StringOrderMeans | examples/bugsy/domain/outputs.ts:100-103 | the order that labels are sorted by: the first difference decides, and a prefix comes first |
| BugsyOutputs.CountOfLabel | examples/bugsy/domain/outputs.ts:109-116 | a count row repeats its label and counts the attached membership rows of the label whose issue exists |
| BugsyTracker.ApplyEvents | examples/bugsy/server/outputs.ts:107-115 | rows and transitions are those of the fold, and rows outside the touched set are as before |
| BugsyTracker.ApplyLabelEvents | examples/bugsy/server/outputs.ts:117-138 | memberships are those of the fold; groups of untouched issues and labels are as before |
| BugsyTracker.ApplyCatalog | examples/bugsy/server/outputs.ts:51-69 | a change or reset does what the catalog means and touches every key whose row moves |
| BugsyTracker.CheckCatalog | examples/bugsy/server/catalog.ts:8-20 | reports the first value that names another workspace, and only such a one |
| BugsyTracker.Touch | examples/bugsy/server/outputs.ts:169-193 | every row grouped under a touched key, before or after, has its id touched |
| BugsyTracker.UntouchedCard | examples/bugsy/server/outputs.ts:196-206 | the card of an issue that no touched row reaches is the card it had |
| BugsyTracker.UntouchedCount | examples/bugsy/server/outputs.ts:208-216 | the count of a label that no touched row reaches is the count it had |
| BugsyTracker.EmitBoard | examples/bugsy/server/outputs.ts:196-206 | rebuilding touched cards only emits what comparing every rebuilt card emits |
| BugsyTracker.EmitCounts | examples/bugsy/server/outputs.ts:208-216 | rebuilding touched counts only emits what comparing every rebuilt count emits |
| BugsyTracker.EmitRemovals | examples/bugsy/server/outputs.ts:218-222 | exactly the previous labels that are gone are removed, in their order |
| BugsyTracker.MapAccumBatch | examples/bugsy/server/outputs.ts:86-224 | the incremental unit equals the full comparison: same state, board, counts and feed, or the first catalog fault; ids stay unique |
| BugsyTracker.UnitKeepsValid | examples/bugsy/server/outputs.ts:86-166 | every unit keeps the ids of each row list unique |
| BugsyRuns.BoardReplay | examples/bugsy/server/outputs.ts:194-206 | replaying a unit's board changes over the previous board gives the card of every issue |
| BugsyRuns.LabelReplay | examples/bugsy/server/outputs.ts:207-223 | replaying a unit's label changes over the previous counts gives the count of every label and no other |
| BugsyRuns.InitialConsistent | examples/bugsy/domain/outputs.ts:40-49 | empty tables are the rebuild of the initial workspace |
| BugsyRuns.UnitKeepsConsistent | examples/bugsy/server/outputs.ts:86-224 | readers' tables equal the rebuild of the saved state after every unit |
| BugsyRuns.UnitStateJoin | examples/bugsy/server/outputs.ts:107-166 | two units leave the state and feed of one unit over both slices |
| BugsyRuns.RunIsJoined | examples/bugsy/server/outputs.ts:86-224 | a run of units faults or ends exactly as one unit over its five joined streams |
| BugsyRuns.CutInvariance | examples/bugsy/server/outputs.ts:86-224 | cutting the same five streams anywhere gives the same state, feed and replayed tables |
| BugsyPublished.BoardMeans | examples/bugsy/server/outputs.ts:194-206 | after any units the board has a card for exactly the created issues, and its issue columns are what the issue events mean |
| BugsyPublished.CardLabelsMean | examples/bugsy/domain/outputs.ts:98-103 | after any units a card names a label once for each membership id whose highest event attaches it to the issue, and for no other reason |
| BugsyPublished.CardNamesMean | examples/bugsy/domain/outputs.ts:104-107 | after any units the names on a card are those of the catalog for the issue's own project and assignee |
| BugsyPublished.CountsMean | examples/bugsy/server/outputs.ts:207-223 | after any units there is a count for exactly the labels of the catalog: the membership ids whose highest event attaches the label to a created issue |
| BugsyPublished.FeedMeans | examples/bugsy/server/outputs.ts:107-115 | after any units the published feed is the sequence of the issue events that count |
| BugsyPublished.TotalsMean | examples/bugsy/server/outputs.ts:157-160 | the saved totals are the number of cards and of cards that are done |
| BugsySql.IssueTables.ApplyIssue | examples/bugsy/server/projection.ts:55-107 | inserting, or updating every column but the key, leaves exactly the folded row; every other row stays; rows sit under their own keys |
| BugsySql.IssueTables.ApplyLabel | examples/bugsy/server/projection.ts:114-132 | both dialects leave the row of the conditional update |
| BugsySql.SequenceComesLast | examples/bugsy/server/projection.ts:109-132 | the left-to-right MySQL update is the conditional one exactly when `sequence` is assigned last |
| BugsySql.MysqlIsConditional | examples/bugsy/server/projection.ts:109-132 | the MySQL statement as written is the conditional update |
| BugsySql.SameIssueRows | examples/bugsy/server/projection.ts:55-107 | in one table shared by all workspaces, a workspace's issue rows are the fold of its own events |
| BugsySql.SameIssuesIffOwn | examples/bugsy/server/outputs.ts:107-115 | table and tracker hold the same issues at every moment exactly when every accepted event carries the workspace |
| BugsySql.ForeignIssue | examples/bugsy/server/outputs.ts:107-115 | a created issue of another workspace is a tracker row that the workspace's table never has |
| BugsySql.SqlKeepsFirst | examples/bugsy/server/projection.ts:109-132 | a workspace's SQL membership row is what the tracker makes of its own events, with the issue and label of the first event of its id |
| BugsySql.HighestSequence | examples/bugsy/server/outputs.ts:117-138 | a membership row carries the highest sequence it was given |
| BugsySql.SameMembershipsIffFixed | examples/bugsy/server/projection.ts:109-132 | tables and tracker hold the same memberships at every moment exactly when accepted events carry the workspace and an id fixes its issue and label |
| BugsySql.ForeignLabel | examples/bugsy/server/outputs.ts:117-138 | one label event of another workspace makes them differ although its id is fixed |
| BugsySql.DottedIdsCollide | examples/bugsy/domain/issue.ts:65-69 | two memberships of one workspace share the id that is joined from their identifiers, and attaching both makes the rows differ |
| FolderMessages.ApplyFileChanges | examples/folder-sync/server/messages.ts:48-60 | the loop over a map is the live-files meaning of the stream |
| FolderMessages.ApplyChanges | examples/folder-sync/server/messages.ts:67-79 | the loop over a map is the last-change meaning of the stream |
| FolderMessages.AfterReset | examples/folder-sync/server/messages.ts:63-64 | the cut lies right behind a reset and no reset follows it |
| FolderMessages.SuffixMeansTheSame | examples/folder-sync/server/messages.ts:63-64 | what follows the last reset means what the whole batch means |
| FolderMessages.LiveIsLastNotDeleted | examples/folder-sync/server/messages.ts:44-79 | the live files are the last changes that are not tombstones |
| FolderView.RememberLoop | examples/folder-sync/server/folder-view.ts:81-93 | deleting oldest first keeps the newest 1024 entries with the landed txid last |
| FolderView.ViewMeansTheStream | examples/folder-sync/server/folder-view.ts:100-154 | live and removed paths of the view are exactly the last changes of the stream by kind, with their values |
| FolderView.LastChangeMeans | examples/folder-sync/server/folder-view.ts:100-154 | the state of a path is the value of the last change at it unless a reset came after, and a live file remembers the txid of that change |
| FolderView.MemoryIsLatest | examples/folder-sync/server/folder-view.ts:80-93 | the memory always is the last 1024 distinct txids ordered by last landing, with their last answers |
| FolderView.MemoryWindow | examples/folder-sync/server/folder-view.ts:80-93 | a txid is remembered exactly when it landed and fewer than 1024 other txids landed after it |
| FolderStore.RefusedExactlyWhen | examples/folder-sync/server/folder-store.ts:33-52 | a request is refused exactly for its size, missing content, a parent past every version, or a txid that landed as another change fewer than 1024 other txids ago |
| FolderAnswers.RefusalMeans | examples/folder-sync/server/folder-store.ts:33-52 | which refusal a request gets: size, missing content, future parent, reused txid, in this order; it appends nothing |
| FolderAnswers.CommitMeans | examples/folder-sync/server/folder-store.ts:187-231 | an accepted commit of a remembered txid answers with its change, of content that is live with the last change of the path, and appends nothing; any other makes this content the path's last change at the next version and answers with it |
| FolderAnswers.DeleteMeans | examples/folder-sync/server/folder-store.ts:244-283 | an accepted delete of a remembered txid answers with its change, of a path that is not live with the empty answer, and appends nothing; any other makes a tombstone of the next version the last change and answers with it |
| FolderStore.NoWriteIsStale | examples/folder-sync/server/folder-store.ts:90-94 | an admitted request whose parent existed at some moment is accepted at every later one, whatever landed in between, unless its txid landed as something else |
| FolderStore.AppendsOneStampedChange | examples/folder-sync/server/folder-store.ts:187-282 | an accepted request appends at most one change, with the next version, its parent and its txid |
| FolderStore.OwnerOnlyStream | examples/folder-sync/server/folder-store.ts:95-284 | under any interleaving versions run 1, 2, 3, …, parents lie below, live and removed paths are disjoint, no current version is shared, resets included |
| FolderStore.EveryLiveFileIsStored | examples/folder-sync/server/folder-store.ts:178-183 | under any interleaving every live change names content that the store held with that size, within the limit |
| FolderStore.LandsAgainOnlyAfter1024 | examples/folder-sync/server/folder-store.ts:43-52 | a txid lands twice only after at least 1024 other txids landed in between |
| FolderStore.RetryGetsItsFirstAnswer | examples/folder-sync/server/folder-store.ts:170-282 | a retry that is still in memory appends nothing and gets the answer it got first, as long as its content is still stored |
| MirrorModel.FreePathIsFree | examples/folder-sync/sync/context.ts:101-111 | the backup name that is found is not taken and is one of the numbered names |
| MirrorModel.BackupsDistinct | examples/folder-sync/sync/decisions.ts:47-54 | numbered backups of one file never share a name |
| MirrorModel.BackupMeans | examples/folder-sync/sync/decisions.ts:47-54 | the number goes in front of the last dot of the last part of the path, or to its end when there is no extension |
| MirrorModel.IgnoredNames | examples/folder-sync/sync/decisions.ts:34-44 | which names are scratch names, character by character |
| MirrorModel.IgnoredBelow | examples/folder-sync/sync/decisions.ts:34-44 | a path is ignored exactly when one of its parts is |
| MirrorState.SyncMirror.Save | examples/folder-sync/sync/state.ts:62-65 | one row is written and nothing else |
| MirrorState.SyncMirror.Next | examples/folder-sync/sync/state.ts:82-87 | the answer is queued and older than every other operation; none means an empty queue |
| MirrorState.SyncMirror.HasPending | examples/folder-sync/sync/state.ts:89-94 | true exactly when an operation of the path is queued |
| MirrorState.SyncMirror.Enqueue | examples/folder-sync/sync/state.ts:96-106 | the operation joins the end with a new number and the known row is saved with it |
| MirrorState.SyncMirror.Uploaded | examples/folder-sync/sync/state.ts:108-110 | exactly the operation with the number is marked; every other operation and its place stay |
| MirrorState.SyncMirror.Discard | examples/folder-sync/sync/state.ts:112-115 | exactly the operation with the number is gone, and the queue keeps its order |
| MirrorState.SyncMirror.Settle | examples/folder-sync/sync/state.ts:117-127 | the operation leaves, later operations of its base and the known row move to the settled version |
| MirrorState.SyncMirror.Reject | examples/folder-sync/sync/state.ts:129-140 | the operation moves to the rejected table with status and reason |
| MirrorState.SyncMirror.Observe | examples/folder-sync/sync/install.ts:35-66 | nothing is done for a scratch path, a folder without write access, or content that was seen or is the server's; anything else is queued once with its base, source and row |
| MirrorState.SyncMirror.KeepReadOnlyEdit | examples/folder-sync/sync/install.ts:100-111 | the search loop ends at the first free numbered name, and the edit is kept there and nowhere else |
| MirrorState.SyncMirror.Install | examples/folder-sync/sync/install.ts:113-162 | each branch spelled out: the edit stays queued, the first sync keeps a local file, the read-only edit moves to a backup, a late edit is queued, or the file is replaced; the row written in each |
| MirrorState.SyncMirror.Deliver | examples/folder-sync/sync/push.ts:14-66 | a sent operation ends in the rejected table with status and reason exactly when the last failure is neither retryable nor 401 or 403; any other failure, or content lost twice, leaves it at the head as it was; acceptance settles it at the answered version and takes it from both tables; a delete of no version is dropped and the head installed |
| MirrorState.SyncMirror.Drop | examples/folder-sync/sync/push.ts:45-54 | the delete leaves the queue and the head is installed at its path |
| MirrorState.SyncMirror.Finish | examples/folder-sync/sync/push.ts:59-65 | the path is observed, the operation settled and the head installed, in this order |
| MirrorSections.ObserveSays | examples/folder-sync/sync/install.ts:35-66 | the observe section of the state machine has the meaning that `Observe` is proved against |
| MirrorSections.InstallSays | examples/folder-sync/sync/install.ts:113-162 | the install section has the branch-by-branch meaning that `Install` is proved against |
| MirrorSections.RecoverSays | examples/folder-sync/sync/engine.ts:140-153 | a resumed mirror observes and installs exactly where a row says that an install was cut short and nothing is queued |
| MirrorSections.ScanSays | examples/folder-sync/sync/scan.ts:15-25 | a scan without write access puts the server's file back exactly where the disk has neither what was seen nor what the server has |
| MirrorSections.DeliveryEnds | examples/folder-sync/sync/push.ts:14-66 | the deliver section ends as the server's last answer says, in terms of queue, rejected table and known rows alone |
| MirrorSections.AcceptedInstalls | examples/folder-sync/sync/push.ts:59-65 | an accepted delivery is an observation, a settlement and an install of the head |
| MirrorSafety.SaveOk | examples/folder-sync/sync/state.ts:62-65 | saving a row that names kept content keeps the mirror's invariant and loses nothing |
| MirrorSafety.EnqueueOk | examples/folder-sync/sync/state.ts:96-106 | a new operation joins the chain of its path and its content is kept |
| MirrorSafety.SettleOk | examples/folder-sync/sync/state.ts:117-127 | settling the head of the queue keeps the chains and loses nothing once its content is in history |
| MirrorSafety.SettleChain | examples/folder-sync/sync/state.ts:117-127 | settling moves the base of every later operation of the path, and of no other, to the settled version |
| MirrorSafety.RejectOk | examples/folder-sync/sync/state.ts:129-140 | a rejected write stays available and the rest of the queue is as it was |
| MirrorSafety.ObserveOk | examples/folder-sync/sync/install.ts:35-66 | observing keeps the invariant, only appends to the queue and does not touch the disk |
| MirrorSafety.PutOnDiskOk | examples/folder-sync/sync/install.ts:150-161 | a file is replaced only by a mirror that can give the old content back |
| MirrorSafety.BackupOk | examples/folder-sync/sync/install.ts:100-111 | a read-only edit is in a backup copy and every older copy is still there |
| MirrorSafety.InstallOk | examples/folder-sync/sync/install.ts:113-162 | every branch of install keeps the invariant, keeps what was kept, and keeps what it overwrites |
| MirrorSafety.FinishOk | examples/folder-sync/sync/push.ts:58-65 | observe, settle and refresh together keep the invariant and lose nothing |
| MirrorSafety.DropOk | examples/folder-sync/sync/push.ts:45-54 | dropping a delete that no version belongs to keeps the invariant and loses nothing |
| MirrorSafety.InterruptedOk | examples/folder-sync/sync/install.ts:150-161 | a process that stops between the writes of an install leaves a mirror with the invariant |
| MirrorSafety.InterruptedReadOnlyOk | examples/folder-sync/sync/install.ts:134-161 | the same for a stop after a read-only edit was moved to its backup |
| MirrorSafety.CutFinishOk | examples/folder-sync/sync/push.ts:61-62 | a process that stops between settlement and refresh keeps the invariant and loses nothing |
| MirrorSafety.RunKeepsInv | examples/folder-sync/sync/install.ts:35-162 | the invariant holds in every reachable state, whatever users, servers and crashes do |
| MirrorTheorems.NothingIsLost | examples/folder-sync/sync/install.ts:113-162 | content that any step takes off the disk is from then on in history, outbox, rejected table or a backup |
| MirrorTheorems.KeptForever | examples/folder-sync/sync/state.ts:96-140 | what is kept once is kept at the end of every run |
| MirrorTheorems.ScratchEditIsLost | examples/folder-sync/sync/install.ts:35-36 | for every scratch path of a writable folder a run loses an edit |
| MirrorTheorems.SafeExactlyWhenWatched | examples/folder-sync/sync/install.ts:35-162 | no run loses overwritten content at a path exactly when it is not a scratch path of a writable folder |
| MirrorTheorems.QueuedOperationsShareOneBase | examples/folder-sync/sync/state.ts:96-140 | in every reachable state queued operations of a path share one base, the known row's `localVersion` |
| MirrorTheorems.QueueMovesForward | examples/folder-sync/sync/push.ts:40-66 | the outbox is a queue, and only the settlement of a path's oldest operation moves its bases, to the settled version |
| MirrorTheorems.PulledChangeIsShownOrQueued | examples/folder-sync/sync/pull.ts:143-149 | after a pulled change the path shows the server's value, or the disk content is its newest queued edit |
| MirrorTheorems.DeliveredPathIsShownOrQueued | examples/folder-sync/sync/push.ts:58-65 | after a delivery the path shows the server's head, or the disk content is its newest queued edit |
| MirrorTheorems.ReadOnlyFolderShowsTheServer | examples/folder-sync/sync/install.ts:133-161 | a folder without write access always shows the pulled value |
| MirrorTheorems.InstallRecordsTheServer | examples/folder-sync/sync/install.ts:113-162 | every branch records the server's version and hash; a path not replaced keeps the base of its edits |
| MirrorTheorems.NoEcho | examples/folder-sync/sync/decisions.ts:14-15 | an installed file is not sent back, and an edit is queued once however often it is observed |
| MirrorTheorems.RestartFinishesTheInstall | examples/folder-sync/sync/engine.ts:140-155 | recovery after a crash inside an install gives the mirror that an uncut install gives |
| MirrorTheorems.DeliverIsARun | examples/folder-sync/sync/push.ts:40-66 | an undisturbed delivery is a run of the state machine's steps |
| Pull.LastUnique | examples/folder-sync/sync/pull.ts:133-140 | the collected changes hold one change for each path |
| Pull.LastChangeIsEnough | examples/folder-sync/sync/pull.ts:129-140 | the last change of each path gives the folder state that all changes give |
| Pull.InstallCovers | examples/folder-sync/sync/install.ts:113-162 | after an install the path has the value, row and file, or waits in the outbox |
| Pull.ApplyAllCovers | examples/folder-sync/sync/pull.ts:142-149 | a page covers each of its paths at its last change and leaves other paths alone |
| Pull.PageCovers | examples/folder-sync/sync/pull.ts:128-153 | a page brings every path it mentions, and every path that was up to date since it began, up to date with the state after it |
| Pull.LastMentions | examples/folder-sync/sync/pull.ts:137-141 | a path is collected exactly when a change of it is among the rows |
| Pull.UnmentionedStays | examples/folder-sync/server/messages.ts:67-79 | what no message mentions keeps its value |
| Pull.DeliveryKeepsUpToDate | examples/folder-sync/sync/push.ts:58-65 | a delivery between two pulls leaves its path up to date since the saved cursor |
| Pull.UpToDateShows | examples/folder-sync/sync/pull.ts:128-153 | what up to date means in rows: an edit waits, or both versions and both hashes of the row are those of the folder |
| Pull.ReplacementCovers | examples/folder-sync/sync/pull.ts:93-99 | reconciling known and new paths makes every unqueued path show the new state, absent ones removed |
| Pull.FirstSyncKeepsLocalFiles | examples/folder-sync/sync/pull.ts:111-120 | a first sync overwrites no local file: each is the server's file or waits as a create |
| Pull.FirstSyncLeaves | examples/folder-sync/sync/pull.ts:111-120 | a first sync leaves alone each scratch file, and each file of a folder without write access that the server does not know |
| Pull.FirstSyncReplaces | examples/folder-sync/sync/pull.ts:111-120 | without write access each path that the server knows shows the server's file |
| Pull.FirstSyncCovers | examples/folder-sync/sync/pull.ts:111-120 | after a first sync the mirror is up to date at every watched path |
| PullState.ResetMakesWhole | examples/folder-sync/sync/pull.ts:163-167 | folding from behind a stored reset gives the state of the whole folder |
| PullState.ReadReplacement | examples/folder-sync/sync/pull.ts:50-90 | the loop ends at the tail with the folder's whole state, through any page cuts and lapses; it fails only when the start lapses or the stream stands still |
| PullState.ApplyPage | examples/folder-sync/sync/pull.ts:128-153 | the loops install the last change of each path in order |
| PullState.Reconcile | examples/folder-sync/sync/pull.ts:168-174 | after the section the mirror is up to date at every watched path, and unqueued files show the new state |
| PullState.PullFolder | examples/folder-sync/sync/pull.ts:156-188 | at the tail the mirror is up to date at every path that changed since the cursor or that it was up to date with since then |
| PullState.InitialiseFolder | examples/folder-sync/sync/pull.ts:102-126 | a first sync is up to date with the tail; unknown local files stay or wait in a writable folder and are left alone or replaced by the server's in another; scratch files stay; on failure the mirror is untouched |
| Replica.ResetBatch.Rewrite | examples/folder-sync/src/db.ts:49-81 | rewritten items read plainly give the rows, txids and keys that the originals mean, and hold no reset or tombstone; event by event, a reset becomes deletes of exactly the rows there are, a tombstone a delete, and the rest passes unchanged |
| Replica.RewriteAll | examples/folder-sync/src/db.ts:49-81 | the same over any sequence of batches |
| Replica.DeletesClear | examples/folder-sync/src/db.ts:55-66 | the deletes that stand for a reset clear the replica |
| Replica.MeaningIsLastWord | examples/folder-sync/src/db.ts:49-81 | a replica row is the value of the last event of its key, unless a reset, a delete or a tombstone came after |
| SearchIndex.Index.Prepare | examples/folder-sync/server/search-index.ts:42-60 | exactly the live changes behind the last reset are staged, with their own text |
| SearchIndex.Index.Apply | examples/folder-sync/server/search-index.ts:68-106 | the statements give the tables of the prepared batch and drop the staging |
| SearchIndex.Index.Process | examples/folder-sync/server/search-index.ts:42-119 | after a unit both tables describe exactly the live files, each with the text its content had when it was indexed; a gone stream leaves them empty |
| SearchIndex.StagingIsEnough | examples/folder-sync/server/search-index.ts:46-56 | staging behind the last reset gives the tables that staging every change gives |
| SearchIndex.IndexDescribesLiveFiles | examples/folder-sync/server/search-index.ts:68-106 | any batch keeps the tables in step with the meaning of the stream |
| SearchIndex.StableBlobsGiveOwnText | examples/folder-sync/server/search-index.ts:14-39 | while stored content stays as it is, every live file is indexed with the text of its own content |
| Projection.Current | packages/projection/src/current.ts:28-67 | the result is the fold of the whole log at the last read, wherever pages are cut |
| Projection.Decide | packages/projection/src/decide.ts:28-70 | an append stands directly behind the log it was decided on; no append means nothing to append there; a lost race means every attempt was overtaken |
| Projection.AdvanceReachesEveryRead | packages/projection/src/checkpoint-store.ts:313-337 | leaving idle inputs out of a unit's ranges loses no progress, and an input is left out exactly when it neither moved nor ended |
| Projection.Reproduce | packages/projection/src/read.ts:185-283 | a retained pin is replayed exactly, however pages are cut; a fault means the history is short or the pin inconsistent; an empty pin keeps its terminal flags |
| Projection.PinAndReplay | packages/projection/src/read.ts:185-283 | a read that is pinned and replayed after other appends gives the first read again |
| Decide.EveryAppendSawTheWholeLog | packages/projection/src/decide.ts:46-70 | under any interleaving each decided append follows from the fold of exactly the log before it |
| Decide.UnchangedSawTheWholeLog | packages/projection/src/decide.ts:51-55 | a call that appends nothing decided on the whole log of one moment |
| Decide.LostRaceMeansFourOthers | packages/projection/src/decide.ts:21-22 | a call gives up only after four appends landed while it ran, none of them its own |
| DecideRaces.GivesUpAtTheFourth | packages/projection/src/decide.ts:46-70 | in every run a call gives up exactly when its fourth append is refused |
| DecideRaces.FourLandMeanwhile | packages/projection/src/decide.ts:46-70 | from the moment a losing call begins to its end at least four appends land, none of them its own |
| Decide.EachCallLandsOnce | packages/projection/src/decide.ts:46-70 | a call lands at most one append, however often it retries |
| Decide.LosersYieldToAWinner | packages/projection/src/decide.ts:57-64 | an append is refused exactly when another one landed after its snapshot |
| Decide.CheckpointOnlyAdvances | packages/projection/src/checkpoint-store.ts:207-240 | the stored record always is the fold of a prefix and its offset never goes back |
| DecideRaces.SaveLandsUncontended | packages/projection/src/checkpoint-store.ts:207-240 | a follower's save lands exactly when the record still is the one it loaded, and then is the fold up to where it read |
| Backoff.DeadlineMonotoneAndBounded | packages/outbox/src/outbox.ts:164-171 | the deadline never falls with attempts, is not in the past, and stays within the maximum delay and the safe cap |
| Backoff.ReachesTheCap | packages/outbox/src/outbox.ts:164-171 | with a growing factor and a positive delay every attempt from a finite one on waits the cap |
| Backoff.ConstantBackoff | packages/outbox/src/outbox.ts:164-171 | with factor 1 the delay stays the initial delay |
| Backoff.FirstDelay | packages/outbox/src/outbox.ts:164-171 | the first retry waits the initial delay |
| Backoff.DelayMultiplies | packages/outbox/src/outbox.ts:164-171 | each retry waits the factor times the delay before it, up to the maximum |
| Backoff.DeadlineIsNearest | packages/outbox/src/outbox.ts:164-171 | the deadline is the time plus the delay to the nearest millisecond, and never an unsafe number |
| Outbox.EnqueueAllOk | packages/outbox/src/memory.ts:51-80 | enqueueing keeps rows legal, appends only pending entries and touches no other |
| Outbox.EnqueueStores | packages/outbox/src/memory.ts:51-80 | exactly the first draft of every new name and key is stored, in order and with its own fields |
| Outbox.ReadIsOldest | packages/outbox/src/memory.ts:96-102 | what is read is pending, current and in id order; an ordered read leaves no older pending entry behind |
| Outbox.ReadTakesOldest | packages/outbox/src/memory.ts:96-102 | a read returns the oldest entries that may be read, as many as the limit allows, and leaves one behind only when the limit is reached |
| Outbox.SettleOk | packages/outbox/src/memory.ts:103-117 | a settlement keeps rows legal, counts one attempt and lowers the open attempts |
| Outbox.SettleKeepsPrefix | packages/outbox/src/outbox.ts:228-283 | settling the oldest pending entry keeps the settled entries of each partition a prefix |
| Outbox.ClassifyFits | packages/outbox/src/outbox.ts:174-206 | every outcome is recorded as a settlement that the policy allows |
| OutboxRuns.SettlementRecords | packages/outbox/src/outbox.ts:174-206 | what is stored for each outcome: delivered for success only, dead with its reason for poison, a permanent failure or the last attempt, else pending with the backoff due time; attempts, detail and time in each |
| OutboxRuns.ReachableRowsAreLegal | packages/outbox/src/sql.ts:347-377 | every reachable entry meets the stored-row rule, is within its attempts (below them while pending), and identities are unique |
| OutboxRuns.SettledEntriesNeverChange | packages/outbox/src/memory.ts:103-117 | no run changes a settled entry, and no entry disappears or changes identity |
| OutboxRuns.SettlementsAreBounded | packages/outbox/src/outbox.ts:228-283 | every settlement lowers the open attempts, and settlements never exceed what the policies allow |
| OutboxRuns.OrderedDrainsSettleAPrefix | packages/outbox/src/outbox.ts:228-283 | a name drained only in order has a settled id-prefix in each partition, through limits, filters, clocks, interrupts and enqueues |
| OutboxRuns.UnorderedDrainsMayOvertake | packages/outbox/src/outbox.ts:228-283 | an unordered drain can settle a later entry before an earlier one |
| OutboxStore.Store.Enqueue | packages/outbox/src/memory.ts:51-80 | the batch is stored, known identities are absorbed, and the two counts add up |
| OutboxStore.Store.NextDue | packages/outbox/src/memory.ts:81-95 | the loop finds when the scope is next due |
| OutboxStore.NextDueIsWhenReadFinds | packages/outbox/src/memory.ts:81-102 | a scope has work at a time exactly when its next due time has come |
| OutboxStore.Store.Record | packages/outbox/src/memory.ts:103-117 | an existing entry is settled in place; an unknown id changes nothing |
| OutboxStore.Store.Drain | packages/outbox/src/outbox.ts:215-299 | the entries of the oldest-first read are attempted in turn up to the stop that ends the pass; each ends in the state its own outcome asks for; the report's numbers count those outcomes; rows stay legal, settled and foreign entries stay, and an ordered pass keeps the settled prefix |
| IssueTracker.WorkInProgressLimit | examples/issue-tracker-demo-event-sourced/server/decide.ts:92-180 | in every log of seed and commands no project has more than the limit in progress |
| IssueTracker.DecisionKeepsLimit | examples/issue-tracker-demo-event-sourced/server/decide.ts:79-180 | what any command decides on a legal view leads to a legal view |
| IssueTracker.EventEffect | examples/issue-tracker-demo-event-sourced/server/command-view.ts:22-41 | one event adds or removes exactly its issue from the work of a project |
| IssueTracker.SeedKeepsLimit | examples/issue-tracker-demo-event-sourced/server/decide.ts:230-281 | the seed keeps the limit wherever it lands |
| IssueTracker.UpdateIssueLoop | examples/issue-tracker-demo-event-sourced/server/decide.ts:112-142 | collecting events in a list gives the decision: rename first, then status |
| IssueTracker.UpdateAnswersTheRow | examples/issue-tracker-demo-event-sourced/server/decide.ts:183-192 | an edit answers with the row that the log then holds |
| IssueDecisions.CreateSays | examples/issue-tracker-demo-event-sourced/server/decide.ts:92-106 | an accepted create writes exactly the requested row and answers with the row the view then holds; its refusals in order |
| IssueDecisions.UpdateSays | examples/issue-tracker-demo-event-sourced/server/decide.ts:112-142 | an accepted patch changes exactly the given fields, the time and the editor of its row and answers with it; a refused one changes nothing |
| IssueDecisions.UpdateRefusals | examples/issue-tracker-demo-event-sourced/server/decide.ts:112-142 | which refusal a patch gets: unknown issue, too much work, no field |
| IssueDecisions.CommentSays | examples/issue-tracker-demo-event-sourced/server/decide.ts:144-161 | a comment is added exactly when its issue exists, anonymous when its name is blank |
| IssueDecisions.ProjectSays | examples/issue-tracker-demo-event-sourced/server/decide.ts:79-90 | a project is created with its trimmed texts and is known from then on |
| IssueDecisions.SeedSays | examples/issue-tracker-demo-event-sourced/server/decide.ts:230-281 | the seed appends its eight events to a workspace without projects, and nothing to any other |
| IssueTracker.UpdateRefusedIffOverLimit | examples/issue-tracker-demo-event-sourced/server/decide.ts:124-135 | an edit is refused for too much work exactly when it would put its project over the limit |
| IssueTracker.CreateRefusedWhen | examples/issue-tracker-demo-event-sourced/server/decide.ts:92-106 | when a create is refused, exactly, including a reused id in a full project |
| IssueTracker.SeededWork | examples/issue-tracker-demo-event-sourced/server/decide.ts:230-281 | the seed leaves the demo project one issue below the limit |
| IssueTracker.RecreateIsRefused | examples/issue-tracker-demo-event-sourced/server/decide.ts:92-106 | a run from the seed whose second create of one issue is refused although the count would not rise |
| Excerpts.ExcerptSegments | site/scripts/check-example-excerpts.ts:58-76 | the loops give the runs between elisions without blank ends |
| Excerpts.CutWeavesBack | site/scripts/check-example-excerpts.ts:58-76 | cutting loses nothing: runs and elisions weave back into the lines |
| Excerpts.RunsHoldNoElision | site/scripts/check-example-excerpts.ts:58-64 | no run that is left holds an elision line |
| Excerpts.SegmentsHaveText | site/scripts/check-example-excerpts.ts:66-75 | every segment has text at both ends, and there is none exactly when all runs are blank |
| Excerpts.FindSegment | site/scripts/check-example-excerpts.ts:85-108 | finds the first occurrence, or that there is none and the line after a longest partial match |
| Excerpts.LeftmostIsEnough | site/scripts/check-example-excerpts.ts:110-125 | taking the first occurrence never loses an embedding of the rest |
| Excerpts.MissingWithIndent | site/scripts/check-example-excerpts.ts:110-125 | nothing is missing exactly when the segments embed in order without overlap; otherwise the line is the one where the leftmost search stops |
| Excerpts.FirstMissingLine | site/scripts/check-example-excerpts.ts:137-153 | no line is missing exactly when the excerpt embeds at some tried indent; a missing line is the one behind the longest match where the greedy search of the unshifted excerpt stops |
| Excerpts.ElisionMeans | site/scripts/check-example-excerpts.ts:50-51 | a line is an elision exactly when the mark is the first thing on it behind white space |
| Excerpts.SourceLinesMean | site/scripts/check-example-excerpts.ts:137-138 | the compared lines are the source's lines without the white space at their ends |
| Excerpts.TriedIndentsAreEnough | site/scripts/check-example-excerpts.ts:129-153 | an excerpt with an unindented line passes exactly when it embeds at any number of spaces |
| Excerpts.IndentedExcerptMissed | site/scripts/check-example-excerpts.ts:129-153 | any other excerpt is missed in a source that holds it one column to the right |
| Excerpts.EnoughExactlyWhenDedented | site/scripts/check-example-excerpts.ts:129-153 | the tried indents are enough in every source exactly when the excerpt keeps an unindented line or is empty |

## Left out

- PullState.PullFolder: states the `once` form, on a stream that stands still only at its tail. The live form repeats it, and on another stream the source's loop would not end.
- PullState.ReadReplacement: bounds how many entries other writers still append and how often a cursor lapses; only termination uses the bounds.
- Projection.Current: one input. With several inputs the state depends on how reads interleave, so there is no single fold to compare with.
- OutboxRuns.ReachableRowsAreLegal: is about the in-memory store. The SQL store's statements, dialects and key limits are not part of this model.
- Backoff.DeadlineMonotoneAndBounded: uses real arithmetic. Rounding of JavaScript numbers below the safe-integer cap is not modelled.
- Path normalisation, symbolic links, size limits and skipped files of the local disk; the mirror's disk is a map from path to content.
- `guardFolder`, discovery, watching and the wake stream of the mirror: they choose when a modelled section runs.
- The owner's checkpoint counting (`CHECKPOINT_EVERY`), folder creation and blob storage; what the store holds when a request is admitted is a parameter.
- The `issue_changes` and `notification_drafts` tables of bugsy's SQL projection, and its store of catalog rows: one update each.
- IssueTracker.EventEffect: takes the issues of the view as a map. The source looks an id up in a plain object, so an id such as `constructor` finds an inherited function where the map has no row.
- IssueTracker.WorkInProgressLimit: the same, for logs with such ids.
- IssueTracker.DecisionKeepsLimit: the same, for commands that name such an id.
- IssueTracker.UpdateIssueLoop: the same; the source would decide an edit of such an id where the model finds no issue.
- IssueTracker.UpdateAnswersTheRow: the same, for edits of such an id.
- Checkpoint removal while a follower runs, which the source requires to be stopped first.
- Schemas, SQL text, HTTP routes, authentication, hosting, user interfaces, timers and fibers.
