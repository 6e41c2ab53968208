# stapel-chat, verified

A Dafny model of the state stapel-chat keeps in its tables and of the transactions that change it,
with proofs about every run. `dafny verify dfyconfig.toml` checks all of it.

## What is modelled

**A thread** (`Rows`, `Journal`, `Columns`, `Services`). A conversation is one row with a counter, its messages in
thread order and its memberships. One counter feeds two sequences: a message's place, fixed when it is
sent, and its revision, taken anew on every edit, deletion and erasure. Each writer is one step of
`Journal.Apply`; `Services.Thread` is the same code as a class whose methods reassign the columns, each
proved equal to its step. `Columns` says, without the writers' own definitions, who may write which column
and what each of them writes.

**The counter and the replay** (`Allocation`, `Replay`, `Frames`, `Tombstones`). What the counter gives out,
what a client that pulls pages above its cursor, or lives on the frames the writers push, ends up holding,
and why a deletion is final although an edit checks a copy it read before the lock.

**One reader's view** (`Readers`, `Cleared`, `LeftList`, `Unread`, `Search`). The badge, the last line, the
search over it, the two lists and the cleared history: each has a page form and a per-row form, or a
rule and a history, and the two are proved to agree.

**All threads together** (`Store`, `Merge`, `MergeKeeps`, `Gdpr`, `Handlers`, `Runs`). The identity of direct
threads (`DirectKey`), what `user.merged` does to every table, what `user.deleted` leaves. `Handlers` holds
the two event handlers as loops over mutable tables; `Runs` shows the global invariant on every store
any sequence of openings, sends, merges and deletions reaches.

**Media claims** (`CdnLedger`, `CdnRuns`, `CdnHandlers`, `CdnBackfill`, `CdnPass`). The events the module
publishes against what its rows carry, over whole runs of the system, with the backfill as one pass and
row by row between everybody else's writes.

**Witnesses** (`Witnesses`). For properties people expect and the code does not keep, the shortest
reachable stores that show it.

**Races** (`SendRace`, `CreateRace`, `Blocks`). Callers of one idempotency key, or of one direct thread, split
into their statements and interleaved with everybody else.

**Presence** (`Presence`, `Lease`). A connection counter with a lease: what a reader of the frames may
believe, and the exact timing bound under which a live socket keeps its user online.

Ids are naturals, user ids strings, instants integers. A unique constraint is a guard on the insert; a
failed insert leaves the state as it was. `Admissible`, `Permitted` and `Allowed` list what the module's
own callers guarantee at a step, and are stated on the state the step finds.

## Where the code and its documentation differ

- `models.py:17-22` calls `seq` gapless. It is so exactly while no message was ever edited, deleted or
  erased (`Allocation.PlacesAreGaplessIffNeverRevised`); the set of numbers given out is gapless
  always (`Witnesses.EditLeavesAGap` is the shortest run with a gap).
- The boot check asks for a throttle below the lease (`checks.py:188`). That does not keep a live socket
  online: throttle, socket guard and silence must fit into the lease together, and each sibling that
  disconnects asks for another silence and another chain of throttled touches
  (`Lease.LeaseHoldsIffBounded`). Whatever the numbers, enough disconnecting siblings let it lapse.
- A merge takes the further of two read markers but drops the guest's cleared mark. Where both accounts
  sat in one thread, and where two threads are folded, what was cleared on the side that goes stays
  hidden exactly when the mark that stays covers it (`Cleared.MergeKeepsClearedIff`,
  `Cleared.FoldKeepsClearedIff`; `Witnesses.MergeUncoversClearedLine`, `Witnesses.FoldUncoversClearedLine`).
- Search and the drawn line agree exactly for label registries whose markers with a colon say what
  their first segment says (`Search.SearchAgreesIffRegistryCoherent`).
- The provider's text lists the assigned operator among the data an erasure covers (`gdpr.py:3-5`);
  `delete` leaves the assignment, leaves the author on messages the user had deleted before, and leaves
  the system lines that say they left, which spell their id out in the body (`services.py:769-774`). A
  merge leaves those lines too (`Gdpr.WhatStillNamesTheUser`, `MergeKeeps.WhatStillNamesTheGuest`;
  `Witnesses.DepartureOutlivesDeletion`, `Witnesses.OwnTombstoneKeepsItsAuthor`,
  `Witnesses.DepartureOutlivesMerge`). What people write about each other is not counted.
- A key cut at 64 characters may end in a space, and then sending it again as stored is a new message
  (`SendRace.StoredKeyIsStable`, `Witnesses.CutKeyIsNotARetry`).
- The frames an edit and a deletion push are built from the caller's copy. The first differs from what a
  replay would serve exactly when the message was deleted, or lost its author, in between; the second
  exactly when it was edited, or lost its author (`Tombstones.EditFrameIsFaithfulIff`,
  `Tombstones.DeleteFrameIsFaithfulIff`; `Witnesses.StaleEditFrameShowsWords`,
  `Witnesses.StaleDeleteFrameForgetsTheEdit`).
- A client is told to remember each frame's number as its resume cursor (`consumers.py:21-24`). It stays in
  step exactly while every frame shows its row as stored, unless the row has moved on, and jumps over no
  row (`Replay.FrameKeepsAgreementIff`). A stale edit frame carries the number of the stored tombstone, so
  a caught-up client keeps the words and no page corrects it (`Frames.StaleEditFrameSticks`).
- The backfill claims rows it read in chunks (`cdn_refs_backfill.py:55`). A row deleted, erased or dropped
  between its read and its claim leaves a claim nobody carries (`CdnPass.NeverOverIffFound`,
  `CdnPass.ClaimAfterDeletionLingers`).
- The separator of `direct_key` must stay out of scope, user ids and subject type, each of which collides
  otherwise (`DirectKey.SeparatorInScopeCollides`, `SeparatorInIdCollides`, `SeparatorInTypeCollides`). The
  subject key, the one part a client spells, is last and may hold anything.
- A merge rewrites authors without a new revision, so no replay carries it (`Replay.MergeIsNotReplayed`).

## Model

| member | source | states |
|---|---|---|
| Journal.StepKeepsInv | services.py:631-674 | every writer keeps places and revisions distinct and ordered, the counter equal to the largest revision (nought exactly for an empty thread), idempotency keys and ids unique, and changes a row only under a revision nobody has seen |
| Journal.RunKeepsInv | services.py:631-643 | the same over any run, together with: rows never move, never lose their identity, and tombstones never come back to life |
| Journal.PostKeepsInv | services.py:646-674 | a send keeps the invariant, and one that violates a constraint consumes nothing |
| Journal.EditKeepsInv | services.py:1032-1040 | an edit of a stored row, whatever copy it was decided on, keeps the invariant |
| Journal.DeleteKeepsInv | services.py:1062-1078 | so does a deletion |
| Journal.BlockIsCovered | services.py:1134-1150 | each number of the block an erasure reserves goes to exactly the row that counts up to it |
| Journal.EraseKeepsInv | services.py:1127-1157 | the block-reserved erasure keeps the invariant |
| Journal.AdoptKeepsInv | actions.py:240-264 | appending another thread's rows on fresh numbers keeps the invariant, key uniqueness included |
| Journal.RenameKeepsInv | actions.py:133-138 | moving one account's rows to another keeps it |
| Journal.LeaveKeepsInv | services.py:763-780 | a departure and the line that announces it keep it |
| Journal.EarlierCopyIsAdmissible | services.py:1020-1032 | a copy read at any earlier state of the thread meets what the invariant asks of edits and deletions |
| Columns.RefusalIsExact | services.py:1020-1030 | an edit is accepted exactly for a live text line by its author within a non-zero window, and every other copy gets its own refusal |
| Columns.RowsAreWrittenForCause | services.py:1009-1157 | column by column: whatever changes in a stored row was changed by an accepted edit, a deletion by its author, an erasure of its sender, or a merge of its sender, each writing exactly its own columns |
| Columns.ErasureTakesABlock | services.py:1134-1150 | an erasure takes as many numbers as the user has live rows and hands them out in thread order |
| Columns.SendAddsItsRow | services.py:646-674 | a send adds one row that says what was sent, under the next number, exactly when its id and key are new, and otherwise changes nothing |
| Columns.DepartureAddsItsLine | services.py:763-780 | a departure adds the line that names the leaver, and a second one changes nothing |
| Columns.FoldAppendsRows | actions.py:240-267 | a fold appends the other rows in order on the next numbers, content as it was, keys only where they are free |
| Columns.SeatsAreWrittenForCause | services.py:677-1223 | column by column: a role never moves, a marker only forward by its reader or by a merge, the departure stamp by its member or a line that brings everybody back, the cleared mark by its member |
| Columns.SeatsAreTakenForCause | actions.py:157-184 | a seat is taken by a fold or a merge, with the row its member or guest had, and given up by the merge of that account alone |
| Columns.MergeMovesTheSeat | actions.py:157-184 | a guest's seat moves as it is, or gives only its markers where the survivor sits; nobody else's moves; the assignment follows |
| Columns.OnlyTheAuthorRewrites | services.py:1009-1094 | over any run with copies as old as they come: words, attachments and stamps of a row differ only if somebody who was its author when the copy was read edited, deleted or erased it |
| Allocation.AllocatedNumbersAreGapless | services.py:631-643 | over any run from an empty thread the numbers up to the counter, and no others, were given out, each to one row in one step |
| Allocation.PlacesAreGaplessIffNeverRevised | models.py:17-22 | places alone are gapless exactly while no row was stamped twice |
| Replay.PageSkipsNothing | services.py:1716-1740 | a page is never empty while something is pending, never longer than its limit, and leaves out no pending row at or below its last revision, nor any if it is not full |
| Replay.PayloadShowsItsRow | realtime.py:87-117 | the wire shape shows the place, revision, words, attachments and stamps of its row, and is determined by them |
| Replay.PageAdvancesCursor | services.py:1716-1740 | every non-empty page moves the cursor forward, never past the counter |
| Replay.WriteKeepsAgreement | services.py:1032-1040 | no writer breaks the agreement of a client with everything at or below its cursor |
| Replay.PullKeepsAgreement | consumers.py:118-134 | neither does upserting a page of any size |
| Replay.ReplayConverges | services.py:1716-1740 | any interleaving of writes, pages and frames that fit keeps that agreement, for a client bounded by a reader's own mark as it stands and for one bounded by none: what the client holds is the row column by column, in thread order |
| Replay.FrameKeepsAgreementIff | consumers.py:21-24 | a client that upserts a pushed frame and moves its cursor by it keeps agreeing exactly when it had passed the frame's number, or the frame shows its row as stored, unless the row moved on, and no row its reader may see lies in between |
| Frames.EarlierRowIsACopy | services.py:1020-1032 | a row read at any earlier state of the thread is a copy in the sense the frame conditions ask for |
| Frames.EditFrameFitsIff | services.py:1032-1040 | at its commit the frame of an edit fits exactly when nobody deleted the row and, where authors count, nothing took its author since the copy was read |
| Frames.DeletionFrameFitsIff | services.py:1065-1091 | the frame of a deletion fits exactly when no edit stamped the row and, where authors count, nothing took its author |
| Frames.FrameShowsItsRow | services.py:697-705 | every frame of a send, a departure, an erasure, or an edit or deletion of a current copy shows a row of the thread as it was left |
| Frames.EveryChangeIsPushed | services.py:697-705 | every row a writer adds or puts under a new revision goes out in a frame under that revision, but for folds and merges |
| Frames.FrameStaysFit | services.py:697-705 | a frame that fits keeps fitting while everybody writes on, however late it arrives |
| Frames.LiveReplayConverges | realtime.py:138-146 | over any session of writers acting on current copies, pages of any size and pushed frames that arrive late, twice or never without jumping over a row, the client agrees with the server at or below its cursor and every frame still fits |
| Frames.NextFrameKeepsAgreementIff | consumers.py:21-24 | after any such session the next frame, whatever it is, keeps the agreement exactly when the client may take it |
| Frames.StaleEditFrameSticks | services.py:1032-1040 | a caught-up client keeps the words of an edit that landed on a tombstone, and no page it asks for says otherwise |
| Replay.CaughtUpHoldsTheThread | services.py:1716-1740 | a client that gets an empty page holds exactly the thread it may see, every column of every row, in thread order |
| Replay.DrainCatchesUp | services.py:1716-1740 | pulling until a page is empty ends with every visible row held as the server has it, from any state of agreement, rows edited, deleted or erased in the meantime included |
| Replay.FilteringCommutesWithReplay | consumers.py:118-134 | two fresh clients that follow the same writes, each pulling whenever and in pages of its own, one bounded by a mark and one not: once caught up, the first holds every row above the mark with the content the second has, and, if it took no live frame, none at or below the mark it began with |
| Replay.MergeIsNotReplayed | actions.py:133-135 | after a merge a caught-up client still names the right author exactly on the rows the guest did not write |
| Replay.ClearedStaysClearedOnReplay | consumers.py:118-134 | no page ever serves a row at or before the mark, whatever happened to the row since |
| Tombstones.TombstoneShowsNothing | realtime.py:87-117 | no projection of a deleted row shows content, or depends on what the row still holds |
| Tombstones.LiveRowShowsItself | services.py:1350-1455 | a live row draws its words stripped, counts all its attachments, keeps place, author and time, and is moderated on what it says |
| Tombstones.MarksNameEachTypeOnce | services.py:1403-1455 | the marks of a row count its attachments and name each type once, in order of first appearance |
| Tombstones.TombstonesAreFinal | services.py:1020-1078 | a deleted row stays deleted in place over any run, stale edits and deletions included |
| Tombstones.VisibleChangesClimb | services.py:1032-1038 | whatever changes what a row shows puts its revision above every number given out before |
| Tombstones.StaleEditLandsOnTombstone | services.py:1020-1038 | an edit decided on a stale copy stores its words on the tombstone and shows none |
| Tombstones.EditFrameIsFaithfulIff | services.py:1032-1040 | the pushed edit frame equals what a replay serves exactly when nobody deleted the row or took its author since the copy was read |
| Tombstones.DeleteFrameIsFaithfulIff | services.py:1065-1091 | the pushed deletion frame equals what a replay serves exactly when no edit stamped the row and nothing took its author since the copy was read |
| Readers.PageAgreesWithRow | services.py:1226-1312 | badge and last line of the annotated page equal the per-row ones, null marks and the shortcut for empty threads included; the badge counts the live lines of others after marker and mark, and the last line is the newest row after the mark |
| Readers.SendMovesTheBadge | services.py:1226-1246 | a send moves a member's badge by one exactly when it is somebody else's line that the member has not read past or cleared, and otherwise not at all |
| Readers.PageAgreesOnEveryRun | services.py:1524-1597 | ... in every state any run reaches |
| Readers.NewestIsLast | services.py:1511-1521 | ordering by place picks the row that was appended last |
| Readers.UnreadChipIsTheBadge | services.py:1702-1713 | the unread filter keeps exactly the threads with a live line of somebody else after marker and mark |
| Readers.ListsPartitionTheThreads | services.py:819-866 | a member's thread is on exactly one of the inbox and left lists, a stranger's on neither |
| Cleared.ServedIsAfterTheMark | services.py:968-978 | history, by-id read, badge and both last-line forms serve only rows after the mark, and history and by-id read serve all of them |
| Cleared.MarkNeverMovesBack | services.py:931-944 | no writer moves a reader's mark back |
| Cleared.ClearedStaysCleared | services.py:890-945 | once set, the mark holds against every later run on every pull path |
| Cleared.ClearingCutsOneHistory | services.py:931-945 | clearing filters the clearer's history in place and changes nothing anyone else is served |
| Cleared.FoldKeepsClearedIff | actions.py:271-279 | what a person cleared in a folded thread stays hidden exactly when their mark in the winner covers it |
| Cleared.FoldCarriesTheMark | actions.py:277-279 | a person who sat only in the folded thread takes the mark along |
| Cleared.MergeKeepsClearedIff | actions.py:174-184 | where both accounts sit in a thread, what the guest had cleared stays hidden from the survivor exactly when the survivor's own mark hides it |
| Cleared.MergeCarriesTheMark | actions.py:168-173 | a membership that moves carries its mark: the survivor reads the very history the guest read |
| LeftList.OnTheLeftListIffLastWordIsLeave | services.py:677-694 | over any run a thread is on the left list exactly when the user's own departure is later than their last return and than the last authored line |
| LeftList.DepartureIsOneLine | services.py:763-780 | a departure posts one system line, moves no other membership, and a second one changes nothing |
| Unread.MergeNeverReUnreads | actions.py:174-184 | where both accounts sat, the survivor's badge never grows and nobody else's moves |
| Unread.MergeFoldsOnlyTheMarkers | actions.py:174-184 | where both sat, each marker of the survivor becomes the further of the two and nothing else of the row changes |
| Unread.MovedMemberNeverReUnreads | actions.py:168-173 | a membership that moves keeps its badge or shows less |
| Unread.FoldGrowsTheBadge | actions.py:248-275 | a fold grows a badge by at most the live lines others wrote after the member's mark, and by exactly those precisely when the marker has not run past their new places |
| Unread.ClampedMarkerGrowsExactly | actions.py:248-275 | a marker at or below the old counter is enough for that |
| Search.ReasonExplainsBlankLine | services.py:1350-1400 | a line draws nothing exactly when a reason says why, but for live text with neither words nor attachments; each reason stands for its own case |
| Search.RowIsFoundByWhatItDraws | services.py:1473-1508 | with a coherent registry a row is found by exactly the words it draws |
| Readers.InboxFindsWhatItDraws | services.py:1649-1699 | in every state any run reaches, the last line the page annotates is found by exactly the words it draws |
| Search.SearchAgreesIffRegistryCoherent | services.py:1473-1508 | search agrees with the drawn line on all rows and needles exactly when the registry is coherent |
| Search.ColonFreeRegistryAgrees | services.py:1323-1347 | markers without a colon are always coherent |
| Search.ColonInMarkerMisleads | services.py:1341-1347 | a concrete registry for which a row is found by a word it does not draw |
| DirectKey.KeyIsJoin | models.py:89-117 | the key is the plain join of its three or five segments |
| DirectKey.KeyIsSymmetric | models.py:113-117 | the key ignores who asks |
| DirectKey.KeyIsInjective | models.py:89-117 | equal keys name the same scope, unordered pair and subject, so a subject-less key never meets one with a subject; the subject key may hold the separator |
| DirectKey.SeparatorInScopeCollides | models.py:113-117 | a concrete scope with the separator in it makes two threads share a key |
| DirectKey.SeparatorInIdCollides | models.py:113-117 | so does a concrete user id |
| DirectKey.SeparatorInTypeCollides | models.py:113-117 | every type with the separator in it shares its key with the type cut there, for any scope, pair and subject key |
| Store.KeyOfPair | actions.py:199-216 | the key recomputed from the sorted members is the key of the pair |
| Merge.AnyOrderSettles | actions.py:187-226 | settling the stale threads one by one reaches a state that depends on their set alone |
| Merge.OrderDoesNotMatter | actions.py:139-146 | two orders end in the same store |
| Merge.GuestKeyDiffers | actions.py:213-224 | no key rebuilt for the survivor is still carried by another stale thread |
| Merge.NewKeysDiffer | actions.py:213-224 | no two stale threads claim the same new key |
| MergeKeeps.UserMergedKeepsInv | actions.py:90-146 | every delivery keeps the global invariant and, unless refused, leaves no author, membership or assignment column naming the guest |
| MergeKeeps.MergeAnswers | actions.py:76-130 | a delivery asks to be repeated exactly when it names two accounts, the guest has something here and the survivor is unknown; it is ignored when there is nothing to do; otherwise no column names the guest |
| MergeKeeps.SeatsAfterMerge | actions.py:129-184 | in every thread that is left, a guest's seat is the survivor's as it was, a thread the guest had left stays left, nobody else's seat moves, and subject, scope and assignment stay |
| MergeKeeps.WhatStillNamesTheGuest | services.py:769-774 | what still leads back to the guest is exactly their departure lines, in every thread that was not lost |
| MergeKeeps.OnlyDepartureLinesStay | actions.py:133-138 | row by row: no author is the guest, and a row is a departure line of theirs exactly when it was one before |
| MergeKeeps.RedeliveryChangesNothing | actions.py:112-126 | a second delivery of the event changes nothing |
| MergeKeeps.MessageSurvivesIff | actions.py:202-211 | exactly the messages of the guest's thread with the survivor are lost |
| MergeKeeps.NoMessageIsLost | actions.py:240-264 | every other message keeps its content; in its own thread it keeps its numbers too, in another it lands at its old order above everything there |
| MergeKeeps.FoldLeavesTheWinner | actions.py:240-280 | the surviving thread keeps its rows, numbers and members; the folded rows follow |
| Gdpr.DirectThreadsGo | gdpr.py:65-74 | the threads that go are exactly the user's direct ones |
| Gdpr.DeleteUserKeepsInv | gdpr.py:45-74 | deletion keeps the global invariant |
| Gdpr.RowAfterDeletion | services.py:1141-1157 | a live row of the user loses words, attachments and author under a new revision and nothing else, any other row is untouched |
| Gdpr.SeatsAfterDeletion | gdpr.py:45-74 | in every thread that is left the user's seat is gone and everybody else's is as it was |
| Gdpr.WhatStillNamesTheUser | gdpr.py:45-74 | what still names the user in a surviving thread is exactly an assignment, a message they had deleted before, and the lines that say they left, all of which stay |
| Gdpr.SecondDeletionChangesNothing | actions.py:28-49 | a second delivery finds nothing to do |
| Runs.EveryRunKeepsGlobalInv | models.py:189-200 | in every reachable store each journal is sound, no message sits twice, every direct thread is between two people under their key, and no key has two threads |
| Runs.SeatsStay | services.py:646-694 | no writer of a thread seats or unseats anybody |
| Rows.RefsAreTheKeys | services.py:87-101 | an attachment list claims exactly the stripped, non-empty keys of its descriptors and bare strings |
| CdnLedger.EachRowSpeaksOnce | services.py:165-175 | in one pass over rows with distinct ids every id hears its own row's event and nothing else |
| CdnLedger.ThreadKeepsBooks | services.py:1065-1093 | after any writer's events each row of the thread is claimed for what it carries |
| CdnRuns.DropKeepsBooks | services.py:148-175 | deleting a thread releases everything its rows claimed and nothing else |
| CdnRuns.FoldKeepsBooks | actions.py:248-280 | a fold needs no event: claims travel with the rows |
| CdnRuns.BackfillClosesTheBooks | cdn_refs_backfill.py:44-62 | one full pass makes every claim exact, tombstones untouched, whatever was missing before |
| CdnRuns.StepKeepsBooks | services.py:87-175 | every step of every writer keeps exact books exact and short ones short |
| CdnRuns.RefClaimedIffCarried | services.py:87-101 | a reference is claimed exactly while a live message has an attachment stored under it, by the key of a descriptor or as a bare string |
| CdnRuns.ClaimsFollowTheRows | cdn_refs_backfill.py:44-62 | that holds after every run that follows one backfill |
| CdnRuns.EarlierCopyIsPast | services.py:1062-1070 | the refs a deletion releases off a stale copy are the ones its live row still carries |
| CdnHandlers.MergeKeepsBooks | actions.py:90-146 | what a whole merge publishes keeps the claims exact: releases for the threads it drops, nothing for rows that move |
| CdnHandlers.DeletionKeepsBooks | gdpr.py:45-74 | so does what a whole deletion publishes, the counterparty's rows in dead threads included |
| CdnPass.ClaimKeepsBooksIff | cdn_refs_backfill.py:55-63 | one claim of the pass says no more than its row carries exactly when the row is still there and live, or carries nothing |
| CdnPass.NeverOverIffFound | cdn_refs_backfill.py:44-63 | over any run of claims between everybody's writes no claim ever says too much exactly when no row was deleted, erased or dropped between its read and its claim |
| CdnPass.StepKeepsExact | services.py:148-175 | whatever is still missing elsewhere, a row whose claim is exact stays so through every step of every writer |
| CdnPass.RowByRowPassClosesTheBooks | cdn_refs_backfill.py:44-63 | a row-by-row pass that finds every row and passes over none ends, whatever was written meanwhile, with a reference claimed exactly while a live message carries it |
| CdnPass.ClaimAfterDeletionLingers | cdn_refs_backfill.py:55-63 | read, deleted, then claimed: the reference is claimed and nobody carries it |
| CdnBackfill.BackfillCdnRefs | cdn_refs_backfill.py:31-62 | the pass counts candidates, publishes and failures so that no failure means every row covered got its claim; where a limit stops it |
| SendRace.SendIsIdempotent | services.py:478-505 | however callers of one key and all other writers interleave: one message, number and event at the most, the same row for all who return, and a raise only after eight failures that were not the key's |
| SendRace.TheEventIsTheSend | services.py:646-674 | the step that publishes the event is an insert by one caller, and has stored what that caller wanted to send under the next number |
| SendRace.UnobstructedSendLands | services.py:478-493 | a send nobody races with is through after its lookup and its insert |
| SendRace.StoredKeyIsReturned | services.py:478-505 | a send whose key is stored returns that row, at once or after its failed insert |
| SendRace.RetryCostsNothing | services.py:479-484 | while the key is stored no retry takes a number or publishes an event |
| SendRace.StoredKeyIsStable | services.py:478 | the stored key deduplicates itself exactly when the stripped key fits into 64 characters or its 64th is not a space |
| Blocks.DoorOpensIff | blocks.py:95-143 | the check clears two people exactly when it is off, or unreachable and not required, or answered and named them in neither direction; it refuses exactly when they are named, and is unavailable exactly when it failed or was required and missing |
| Blocks.DirectionIsNotDisclosed | blocks.py:95-106 | the verdict is the same from both sides, whichever direction the store spells, as long as its answers to the two spellings both report the pair or both do not |
| Blocks.SendDoorIsTheOpeningDoor | services.py:567-601 | a send into a direct thread is held to the verdict of opening it; no other thread is asked about |
| CreateRace.CreateIsIdempotent | services.py:319-354 | concurrent callers of one key end with one thread and one event at the most, the same thread for all who return, opened only after its own check cleared |
| CreateRace.CreateUnderChurn | services.py:319-354 | while merges rekey threads onto the key and fold or delete its carrier: never two carriers, a return names the carrier of its moment, a thread is opened only while there is none and by a caller who was cleared, and no more often than once and once for each removal |
| CreateRace.ExistingThreadCostsNoCall | services.py:320-328 | while the thread exists nobody's return calls the block store |
| CreateRace.NobodyOpensAThreadWithThemselves | services.py:330-354 | a caller who names themselves never gets a thread |
| CreateRace.NewThreadIsEmpty | services.py:330-346 | a thread that was just opened seats its two people, who have read, left and cleared nothing, and holds no line |
| CreateRace.UnobstructedCallerOpens | services.py:319-346 | a caller nobody races with whose pair is cleared has a new thread after lookup, check and insert |
| CreateRace.RefusedCallerOpensNothing | services.py:329-329 | a caller whose pair is not cleared gets that verdict and opens nothing |
| CreateRace.ExistingThreadIsReturned | services.py:320-354 | a caller that finds the thread there returns it, at once or after its failed insert |
| CreateRace.SelfKeyIsFree | models.py:189-200 | in a sound store no thread carries the key of one person twice |
| CreateRace.OpeningKeepsGlobalInv | services.py:330-346 | a creation keeps the global invariant |
| Presence.FramesAreSound | presence.py:185-241 | over every run a reader who believes the last frame until its deadline is right; the counter stays at or above nought; online never outlives the last renewal by the lease |
| Presence.FramesTellTheFlip | presence.py:185-241 | a frame goes out exactly when somebody not online connects or the last connection goes, and says what the row says at that moment |
| Presence.BeliefMayExpireEarly | presence.py:244-264 | a concrete run in which the belief ends while the lease still runs |
| Presence.UserPresence.OnConnect | presence.py:185-211 | the new row and the frame, if the connect turned the user online |
| Presence.UserPresence.OnDisconnect | presence.py:214-241 | the floored counter, the ended lease and the frame of the last disconnect |
| Presence.UserPresence.Touch | presence.py:244-264 | the lease is renewed exactly when the row was stale, and no frame goes out |
| Presence.PresenceSocket.Disconnect | consumers.py:353-367 | a socket uncounts itself once, and only if it was counted |
| Presence.PresenceSocket.Evidence | consumers.py:373-391 | a counted socket asks for a touch at most once per guard interval |
| Lease.LeaseHoldsIffBounded | presence.py:214-264 | a live socket keeps its user online in every run with at most n sibling disconnects while it is open, exactly when the lease covers throttle, guard and silence and, n times over, a silence and the reach of throttled touches; with none, exactly when throttle, guard and silence fit |
| Lease.ConnectionsCountSockets | presence.py:185-241 | while no socket is lost without a disconnect the row counts the open sockets, and with the last of them the user is offline at once |
| Lease.TightRunLapses | consumers.py:373-391 | for every number of disconnects a run with exactly that many that shows the user offline when they do not |
| Lease.LeaseSurvivesDisconnects | presence.py:227-264 | a covering lease lapses in no run with so many disconnects, earlier sessions and the socket's own reconnects included |
| Lease.SiblingDisconnectsDefeatEveryBound | presence.py:227-238 | for all parameters, closing sibling tabs lets the lease lapse under a socket that talks on every tick |
| Services.Thread.AllocateSeq | services.py:631-643 | the counter moves by one and is handed out |
| Services.Thread.PostOnce | services.py:646-674 | the transaction is the journal's step, or leaves everything as it was |
| Services.RefusalIsExact | services.py:474-476 | a send is turned away for its reply exactly when it answers no message of the thread, and otherwise only for the block check of an authored line in a direct thread |
| Services.AttemptsEndAtTheKey | services.py:487-505 | whoever writes between the attempts, a send that returns names the row that holds its key, and one that raises leaves a thread without it |
| Services.AttemptsAlone | services.py:487-505 | with nobody else writing, the first attempt nothing stands in the way of is the one that lands |
| Services.Thread.PostMessage | services.py:447-505 | refusals first, then the stored key, then the bounded attempts with their twin lookups, other writers getting in before and after each |
| Services.Thread.EditMessage | services.py:1009-1040 | the copy decides, which must be live text by the editor in time, and each other copy gets its own refusal and changes nothing; the write is the journal's step |
| Services.Thread.DeleteMessage | services.py:1043-1094 | likewise, idempotent on a deleted copy |
| Services.Thread.Leave | services.py:730-780 | stamp and line together or neither |
| Services.Thread.Rejoin | services.py:783-816 | the stamp alone is cleared |
| Services.Thread.Clear | services.py:890-945 | the caller's mark is set, and theirs only |
| Services.Thread.MarkRead | services.py:1192-1206 | the marker moves forward or not at all |
| Services.Thread.MarkDelivered | services.py:1209-1223 | likewise |
| Handlers.ChatTables.MoveMessages | actions.py:240-267 | row by row, the winner ends with the loser's rows on its next numbers and the loser with none |
| Handlers.ChatTables.SeatMembers | actions.py:269-279 | the loser's members join unless they already sit there |
| Handlers.ChatTables.FoldConversation | actions.py:229-280 | the fold as a whole |
| Handlers.ChatTables.RequalifyDirectKey | actions.py:187-226 | one stale thread is dropped with its claims released, keyed again or folded, and keys stay unique |
| Handlers.ChatTables.MergeParticipations | actions.py:157-184 | in every thread the guest's seat moves as it is, or gives only its two markers, and no other seat moves |
| Handlers.ChatTables.HandleUserMerged | actions.py:52-146 | the handler is the specified transformation for some order of the stale threads and publishes its events; refused or raised, it changes and publishes nothing |
| Handlers.ChatTables.EraseUserMessages | services.py:1120-1165 | the erasure loop over every thread of the user, with the releases it publishes |
| Handlers.ChatTables.HandleUserDeleted | gdpr.py:45-74 | erase, unseat, drop, in that order, with every release the three parts publish |
| Witnesses.DepartureOutlivesDeletion | services.py:769-774 | leave, then be deleted: no column names the user and a line of the transcript does |
| Witnesses.DepartureOutlivesMerge | services.py:769-774 | leave, then be merged away: likewise |
| Witnesses.OwnTombstoneKeepsItsAuthor | services.py:1131-1133 | a message taken back before the account is deleted keeps its author |
| Witnesses.StaleEditFrameShowsWords | services.py:1032-1040 | an edit decided before a deletion pushes words the stored row does not show |
| Witnesses.StaleDeleteFrameForgetsTheEdit | services.py:1065-1091 | a deletion decided before an edit pushes a tombstone that was never edited |
| Witnesses.EditLeavesAGap | models.py:17-22 | one edit leaves a place no message sits at |
| Witnesses.MergeUncoversClearedLine | actions.py:174-184 | the survivor reads a line the merged account had cleared |
| Witnesses.FoldUncoversClearedLine | actions.py:269-279 | after a fold the seller reads a line they had cleared in the folded thread |
| Witnesses.CutKeyIsNotARetry | services.py:478-484 | a retry under the key as stored is not recognised |

## Left out

- HTTP routing, serializers, DTO plumbing, OpenAPI, admin, settings, error keys, system checks, migrations.
- The ORM and SQL: a queryset is a filter and sort over the rows, a row lock an atomic step, a constraint a guard.
- The envelope, heartbeat and backpressure of the realtime base, outbox delivery, broker transport: frames are delivered in order and publishes succeed, except where a member says otherwise.
- Live frames are not filtered per subscriber (`realtime.py:145-146`), so the cleared mark is proved for what a reader pulls, not for what is pushed.
- Who a presence frame reaches: fan-out limits, guest disclosure and the skipping of left threads in `announce`.
- Finer interleavings inside `on_connect` and `on_disconnect`: each is one step here.
- What the realtime base does about a gap between two frames: the client modelled takes what it is given and remembers its number.
- Between the steps of one handler nobody else writes; the source holds one transaction for a merge, and one per thread for an erasure.
- The first guard reading of a socket counts from an absent touch; the code starts from a monotonic nought, which differs only in the first seconds after a machine boots.
- Attachment normalization and media description, subject cards, activity states, previews cut to 140 characters, the title and counterpart half of the inbox search.
- The order of the lists (`updated_at`, and the departure stamp on the left list) and their pages.
- The support queue, assignment and status changes; a support or group thread is only ever opened empty and written to.
- Case folding is an arbitrary per-character map that keeps spaces apart from words; foldings that change length are not modelled.
- The client's old cursor in a thread that was folded away: replay is stated for the thread that survives.
- The unsubscribed deletion of a user row that nulls senders: accounts leave through the two events only.
- Replay.ReplayConverges: where a run contains a merge the payloads are compared without their author, because the code rewrites authors without a revision.
