# Durable ETL and projection protocols, verified

This project models the part of the system that has to survive crashes, retries and overlapping workers: the
company-context projection with its leases, windows and cursors; the Slack backfill queue, its message
reconciliation and the incremental tick; the resumable Google Chat, Google Calendar and embedding runs; and four
small algorithms with exact specifications (line reading, message chunking, OAuth client credentials, and the
lifetime of API client tokens and event streams).

Every SQL statement is one atomic step over maps. Protocols are state machines whose steps may interleave in any
order, and whose workers may stall, duplicate each other or die between any two steps; theorems quantify over all
runs. Code that updates state is a class with `modifies` clauses, or a method with loop invariants, proved against
the specification functions the theorems are about. Where a promise fails for some settings, the project gives the
failing run and proves the exact condition under which the promise holds.

| module | what it covers |
|---|---|
| `Runs` | runs and reachable states of any state machine, and what every run keeps |
| `KeysetPaging` | pages by `(updated_at, key)`, continuation chains |
| `ProjectionCheckpoint`, `ProjectionProtocol`, `ProjectionTheorems`, `ProjectionCursor`, `ProjectionProgress`, `ProjectionStore` | the projection of one scope: statements, state machine and invariant, what holds of every run, the stored cursor and its chain of continuations, watermark progress, the workflow's own code |
| `SlackMessages`, `SlackThreadRefresh` | bulk upsert and attachment reconciliation, authoritative thread replacement |
| `SlackJobs`, `SlackOwnership`, `SlackBootstrap`, `SlackTick` | the job table, who owns a job, bootstrap coverage, the incremental tick |
| `ChatTables`, `ChatSync` | Google Chat tables, page-budgeted runs with continuation tokens |
| `CalendarSync` | sync tokens against a change log, the restart after an expired token |
| `Embeddings` | batches with fallback, the requeue chain |
| `LineReader`, `Chunking` | the workflow host's line reader, message splitting and delivery |
| `ApiCredentials`, `ApiScopes`, `ApiClients`, `EventStream` | client authentication, scopes, token liveness, the event stream's lifetime |

## Where the code does less than its comments say

- The projection never loses a row exactly when every row becomes visible strictly less than the overlap after its
  stamp (`NoLostRowExactly`). Its watermark never decreases exactly when the overlap is at most the window length
  (`MonotoneExactly`), and advances exactly when it is below (`ProgressExactly`, `NeverCatchesUp`). The code checks
  neither setting.
- Two workers under one token can move the stored cursor back (`CursorCanMoveBack`). It never moves back exactly when
  a worker reads the checkpoint only while no other worker of its token is at work (`CursorMonotoneExactly`).
- Scopes that render the row they paged (Google Docs, Attio meetings) can overwrite a newer document with an older
  one when a worker outlives its lease (`StaleRender`); scopes that load rows while rendering cannot.
- The comment in the Slack tick calls the watermark monotonic. It is when ticks of a channel do not overlap, and only
  then (`CheckpointMonotoneExactly`). A tick's commit may also find its continuation already finished by a worker
  (`EndedBetween`); the continuation is sure to be pending or running exactly when no worker may end it between the
  enqueue and the commit (`InFlightExactly`).
- Widening a bootstrap job that was skipped as unreadable records a window that was never read (`SkippedThenWidened`).
- A worker that outlives its claim can complete a bootstrap job with the window it had before a widening
  (`WideningUndone`); the recorded bound is the one last asked for exactly when a held job is never claimed again
  (`RecordedExactly`).
- An interrupted first Chat run leaves an empty continuation token and half a message (`FailedFirstRun`), so an empty
  token means a finished scan exactly when the last run succeeded (`ResumeExactly`).
- Two overlapping runs over one calendar can leave an event older than the stored token for good (`CalendarSync.Overtaken`).
- The event stream reads the clock in whole seconds, so it may outlive its token by the rest of the second it was
  opened in (`OnTimeExactly`).
- A footer longer than the chunk limit is posted whole (`OversizedFooter`); every message fits exactly when the footer
  does (`FitsExactly`).
- A client that sends its Basic credentials without form-encoding them is understood unless they look encoded
  (`RawExactly`).

## Model

| member | source | states |
|---|---|---|
| `KeysetPaging.FetchPage` | workflows/company_context_documents.py:1737-1769 | a page is sorted, current, matching, at most the batch size, and misses a matching row only when it is full and the row sorts after it |
| `KeysetPaging.LeastKey` | workflows/company_context_documents.py:1761-1769 | the row that `ORDER BY updated_at, key` puts first |
| `KeysetPaging.PageExactly` | workflows/company_context_documents.py:1722-1769 | a page column by column: eligible rows with start < stamp ≤ end, after the cursor by stamp and then key, in that order, none left out but after a full page |
| `KeysetPaging.PageUnique` | workflows/company_context_documents.py:1710-1769 | two answers to one page query are equal, so the limit is deterministic |
| `KeysetPaging.FullPageAdvances` | workflows/company_context_documents.py:1728-1783 | a full page moves the cursor strictly forward and takes exactly its rows out of what is left |
| `KeysetPaging.LeftShrinks` | workflows/company_context_documents.py:1722-1734 | deletes and writes stamped after the window only take rows out of what is left of it |
| `KeysetPaging.ChainEnds` | workflows/company_context_documents.py:2209-2240 | k consecutive full pages, over tables changed that way in between, need k batches of rows left at the start: a chain ends |
| `KeysetPaging.CursorsIncrease` | workflows/company_context_documents.py:1772-1783 | along such a chain the cursor strictly increases |
| `KeysetPaging.ChainServesEachRowOnce` | workflows/company_context_documents.py:2209-2240 | over an unchanging table a continuation chain lists every eligible row beyond the cursor, in order, each once |
| `KeysetPaging.ChainLength` | workflows/company_context_documents.py:2209-2240 | over an unchanging table a chain that has ended had floor(rows / batch) + 1 pages |
| `ProjectionCheckpoint.Claim` | workflows/company_context_documents.py:2114-2159 | a claim hands out the request's token with an open window and a new lease, and is refused exactly while an unexpired lease exists |
| `ProjectionCheckpoint.FirstWindow` | workflows/company_context_documents.py:2124-2135 | the first claim opens (seed − overlap, min(host clock, seed − overlap + window length)], or everything up to the host clock without a seed, with the seed as watermark and no cursor; it raises iff the host clock is before the start |
| `ProjectionCheckpoint.OpenWindowKept` | workflows/company_context_documents.py:2136-2150 | reclaiming an open window keeps its bounds, cursor and watermark |
| `ProjectionCheckpoint.NextWindow` | workflows/company_context_documents.py:2136-2146 | a new window starts at watermark − overlap and ends at the clock or the window length, whichever is first; a missing watermark falls back to the seed, and then to no start |
| `ProjectionCheckpoint.LeaseExcludes` | workflows/company_context_documents.py:2150-2169 | a checkpoint is read iff token and unexpired lease match, and then nobody can claim it |
| `ProjectionCheckpoint.AdvanceRenews` | workflows/company_context_documents.py:2183-2199 | storing a cursor under the current token renews the lease for 1200 seconds and keeps the window; another token does nothing |
| `ProjectionCheckpoint.FinishCloses` | workflows/company_context_documents.py:2172-2180 | finishing makes the window's end the watermark, closes the window and frees the lease |
| `ProjectionProtocol.ClaimKeeps` | workflows/company_context_documents.py:2114-2159 | claiming or reclaiming a window keeps the protocol invariant, LEAST ignoring NULL included |
| `ProjectionProtocol.ReadKeeps` | workflows/company_context_documents.py:2162-2169 | a worker that reads the row takes over a window and cursor below which everything is projected |
| `ProjectionProtocol.FetchKeeps` | workflows/company_context_documents.py:2209-2217 | a fetched page holds every due row of its window up to its last position |
| `ProjectionProtocol.ProjectKeeps` | workflows/company_context_documents.py:1939-2111 | rendering one document never takes coverage away, whichever worker does it |
| `ProjectionProtocol.FinishKeeps` | workflows/company_context_documents.py:2172-2180 | after the short last page the whole window, and everything before it, is projected up to the new watermark less the commit delay |
| `ProjectionProtocol.AdvanceKeeps` | workflows/company_context_documents.py:2183-2199 | moving the cursor, forward or back, keeps everything at or below it projected |
| `ProjectionProtocol.SourceKeeps` | workflows/company_context_documents.py:1710-1769 | rewrites, late commits, deletes, the clock and crashes keep the invariant |
| `ProjectionProtocol.StepKeeps` | workflows/company_context_documents.py:2114-2249 | every step of the protocol keeps the invariant |
| `ProjectionProtocol.RunKeeps` | workflows/company_context_documents.py:2114-2249 | so does every run |
| `ProjectionTheorems.NoLostRow` | workflows/company_context_documents.py:1710-1769 | in every reachable state every current row stamped after the first window's start and at or before watermark − overlap (even watermark − delay) has been projected since it was written |
| `ProjectionTheorems.NoLostRowSinceSeed` | workflows/company_context_documents.py:2124-2144 | over runs whose first claim has a given seed, every eligible row stamped after seed − overlap (any row without a seed) and at or before watermark − overlap is projected once a window has finished |
| `ProjectionTheorems.NoLostRowExactly` | workflows/company_context_documents.py:2124-2144 | no row is lost over all runs if and only if the commit delay is always strictly below the overlap |
| `ProjectionTheorems.LateCommit` | workflows/company_context_documents.py:2124-2144 | the run that loses a row whose delay reaches the overlap |
| `ProjectionTheorems.CoveredBelowCursor` | workflows/company_context_documents.py:2205-2231 | inside an open window every due row at or below the cursor is projected, whoever moved the cursor |
| `ProjectionTheorems.CursorCanMoveBack` | workflows/company_context_documents.py:2183-2199 | the run in which a duplicate worker under the same token moves the cursor of an open window back |
| `ProjectionCursor.StepKeepsChain` | workflows/company_context_documents.py:2202-2240 | with one worker of a token at work at a time, every step keeps that worker where the checkpoint is and its page beyond the cursor |
| `ProjectionCursor.CursorMonotoneExactly` | workflows/company_context_documents.py:2183-2240 | over all runs no step moves the cursor of an open window back iff a worker reads the checkpoint only while no other worker of its token is at work |
| `ProjectionCursor.StepBounded` | workflows/company_context_documents.py:2209-2240 | storing a cursor uses up its page of the rows still to serve, and no other step adds to them |
| `ProjectionCursor.ContinuationEnds` | workflows/company_context_documents.py:2202-2240 | the full pages such workers fetch from the stored cursor and conclude, across reclaims, crashes and rewrites, hold no more rows than were left once the commit delay had passed (plus a page already in hand), and each ends strictly beyond the one before |
| `ProjectionCursor.PagesCount` | workflows/company_context_documents.py:2219-2240 | so continuations are at most the rows divided by the batch size |
| `ProjectionTheorems.Fencing` | workflows/company_context_documents.py:2131-2200 | after a reclaim no step by an older token changes the checkpoint, in any continuation |
| `ProjectionTheorems.RetiredForever` | workflows/company_context_documents.py:2131-2200 | a token that lost the lease never gets it back |
| `ProjectionTheorems.WindowFixed` | workflows/company_context_documents.py:2131-2148 | window bounds and watermark stay as claimed until the window is finished, across any number of reclaims |
| `ProjectionTheorems.RunOnlyMovesOut` | workflows/company_context_documents.py:1710-1734 | once the commit delay after a window's end has passed, every run of the protocol only takes rows out of the window |
| `ProjectionTheorems.DocumentsCurrentExactly` | workflows/company_context_documents.py:1939-2111 | documents hold the current version of every settled row over all runs if and only if the scope loads rows while rendering |
| `ProjectionTheorems.StaleRender` | workflows/company_context_documents.py:2110-2111 | the run in which a worker past its lease puts an older version back |
| `ProjectionProgress.CycleMark` | workflows/company_context_documents.py:169-179 | a finished window starts at watermark − overlap, leaving no gap, and its end is the clock or the window length, whichever is first |
| `ProjectionProgress.ProgressExactly` | workflows/company_context_documents.py:2124-2144 | one claimed and finished window does not lower the watermark iff overlap ≤ window length, and raises it iff also strictly and the clock has moved |
| `ProjectionProgress.MonotoneExactly` | workflows/company_context_documents.py:2124-2180 | over all interleavings, windows reclaimed and finished by any workers, the watermark never decreases iff overlap ≤ window length |
| `ProjectionProgress.Regression` | workflows/company_context_documents.py:2124-2180 | the run in which it decreases otherwise |
| `ProjectionProgress.NextWatermark` | workflows/company_context_documents.py:2131-2180 | whoever reclaims and finishes a window, the watermark it leaves is the claim's clock or old watermark − overlap + window length, whichever is first, and it started at watermark − overlap |
| `ProjectionProgress.CatchUp` | workflows/company_context_documents.py:2124-2180 | over every run that begins between windows, whoever reclaims and finishes them, n finished windows bring the watermark to the target or gain n times (window length − overlap), and never more |
| `ProjectionProgress.CatchUpBound` | workflows/company_context_documents.py:2124-2180 | hence catching up takes at most ceil(lag / (window length − overlap)) finished windows of any run |
| `ProjectionProgress.NeverCatchesUp` | workflows/company_context_documents.py:2124-2180 | with overlap at least the window length no run of any length advances the watermark |
| `ProjectionStore.BatchSize` | workflows/company_context_documents.py:1669-1676 | the configured value between 1 and 250, 250 above, 50 when missing or not positive |
| `ProjectionStore.Scope.constructor` | workflows/company_context_documents.py:2114-2130 | an empty scope is the protocol's initial state |
| `ProjectionStore.Scope.ClaimScope` | workflows/company_context_documents.py:2114-2159 | the method is exactly the protocol's claim step |
| `ProjectionStore.Scope.ProjectPage` | workflows/company_context_documents.py:1939-2111 | projecting a page is one protocol step per row, in order |
| `ProjectionStore.Scope.ConcludeBatch` | workflows/company_context_documents.py:2219-2240 | a short page finishes the window and moves the watermark to its end, a full one stores the last row as cursor |
| `ProjectionStore.Scope.RunScopeBatch` | workflows/company_context_documents.py:2202-2249 | an uninterrupted child run, with its skip paths, is a sequence of protocol steps, so the theorems apply to the code |
| `SlackMessages.DedupeMessageRows` | workflows/slack/shared.py:479-484 | keys become distinct and each keeps its last row |
| `SlackMessages.ReconcileAllReflects` | workflows/slack/shared.py:311-357 | row-by-row reconciliation leaves what each message's last observation says, columns and attachment set |
| `SlackMessages.ReflectsUnique` | workflows/slack/shared.py:311-357 | that description determines the tables |
| `SlackMessages.LastObservation` | workflows/slack/shared.py:311-357 | a batch leaves each message the columns of its last row and, per file id, the payload of that row's last file; nothing for ids it does not have |
| `SlackMessages.AttachmentRowsExact` | workflows/slack/shared.py:224-250 | a row's attachment rows are its files with an id, the last of each id |
| `SlackMessages.Store.UpsertMessages` | workflows/slack/shared.py:487-533 | dedupe, bulk upsert and set-based delete leave the same tables as reconciling the original rows one by one, duplicates included |
| `SlackMessages.Store.ReplaceAttachments` | workflows/slack/shared.py:311-357 | the batch's messages end with exactly their last row's files, other messages keep theirs |
| `SlackMessages.Store.ReplaceThreadReplies` | workflows/slack/shared.py:536-576 | the thread's stored replies become exactly the given ones, other messages and their files are untouched; both counts are right |
| `SlackMessages.Store.DeleteStaleReplies` | workflows/slack/shared.py:550-575 | exactly the unlisted children and their files go, and the count says how many |
| `SlackMessages.InterruptedReplace` | workflows/slack/shared.py:545-576 | after a crash between its two transactions, the next attempt leaves what one clean call leaves |
| `SlackMessages.OutsideUntouched` | workflows/slack/shared.py:330-357 | messages and attachments outside the batch are untouched |
| `SlackMessages.ReplayHarmless` | workflows/slack/shared.py:487-505 | storing a batch again changes nothing |
| `SlackMessages.DedupeIsNeeded` | workflows/slack/shared.py:479-484 | without the dedupe a file dropped between two observations of a message would survive |
| `SlackThreadRefresh.FetchReplies` | workflows/slack/backfill.py:300-345 | the loop lists all pages of the thread minus the root, or raises exactly when the cursor chain never ends, within one request per distinct cursor |
| `SlackThreadRefresh.RefreshThread` | workflows/slack/backfill.py:300-377 | after a completed refresh a key of the channel is a child of the thread iff its timestamp is that of a listed reply; it holds the content and exactly the files of the last such reply; other messages stay, former children go; a raised refresh changes nothing |
| `SlackThreadRefresh.FullWalkUnique` | workflows/slack/backfill.py:306-345 | a thread has at most one complete listing |
| `SlackThreadRefresh.CycleNeverEnds` | workflows/slack/backfill.py:338-342 | a repeated cursor means that no complete listing exists |
| `SlackThreadRefresh.ListingExact` | workflows/slack/backfill.py:315-323 | a reply is listed iff some page shows it and it is not the root |
| `SlackThreadRefresh.ListingInOrder` | workflows/slack/backfill.py:315-324 | replies are listed page after page |
| `SlackThreadRefresh.WithoutRootInOrder` | workflows/slack/backfill.py:315-319 | and in the order of each page |
| `SlackThreadRefresh.FullWalkExactly` | workflows/slack/backfill.py:336-344 | a listing is complete iff it starts without a cursor, follows each page's nonempty cursor while there is more, and stops where there is none |
| `SlackJobs.Enqueue` | workflows/slack/shared.py:1494-1556 | the job gets the new payload and is pending iff it is new or the guard lets the update through, else nothing changes; other jobs never do |
| `SlackJobs.RefreshGuard` | workflows/slack/shared.py:1516-1526 | which statuses an enqueue may overwrite, for both flags |
| `SlackJobs.ClaimableExactly` | workflows/slack/shared.py:1660-1692 | pending and failed jobs can be claimed, completed ones not, running ones iff stamped more than two hours ago |
| `SlackJobs.SeedExactly` | workflows/slack/shared.py:1559-1599 | seeding records the requested window once, with no cursor |
| `SlackJobs.WidenExactly` | workflows/slack/shared.py:1602-1657 | which jobs are widened, and that they are reopened from the requested bound up to their old oldest bound when completed, else up to their old latest one |
| `SlackJobs.MarksExactly` | workflows/slack/shared.py:1695-1825 | what touching, failing, skipping and completing leave of a job |
| `SlackOwnership.ClaimKeeps` | workflows/slack/shared.py:1660-1692 | a claim, stale reclaim included, takes no job from a timely holder |
| `SlackOwnership.StepKeeps` | workflows/slack/shared.py:1516-1708 | enqueuers, seeding, widening, claims, touches and writes keep every held job with its holder and payload |
| `SlackOwnership.RunKeeps` | workflows/slack/shared.py:1516-1825 | so does every interleaving |
| `SlackOwnership.OwnershipExactly` | workflows/slack/shared.py:1660-1708 | over all interleavings no job has two holders and a running payload stays as claimed, iff live workers stamp their jobs within the stale interval |
| `SlackOwnership.DoubleClaim` | workflows/slack/shared.py:1660-1692 | the run with two holders when they do not |
| `SlackBootstrap.ListingExact` | workflows/slack/shared.py:1407-1414 | the server lists exactly the messages of the inclusive window |
| `SlackBootstrap.PageKeeps` | workflows/slack/backfill.py:393-462 | a page read by any worker, stale or not, keeps the coverage invariant |
| `SlackBootstrap.WidenKeeps` | workflows/slack/shared.py:1602-1657 | the old oldest bound can serve as the new latest one |
| `SlackBootstrap.StepKeeps` | workflows/slack/shared.py:1559-1657 | seed, claim, page, requeue, fail, complete, widen and crash keep coverage |
| `SlackBootstrap.RunKeeps` | workflows/slack/shared.py:1559-1657 | so does every run |
| `SlackBootstrap.CoverageExactly` | workflows/slack/shared.py:1559-1657 | a completed, unskipped bootstrap job has fetched everything from its recorded oldest bound to the seeded latest, over all runs, iff skipped jobs are not widened |
| `SlackBootstrap.SkippedThenWidened` | workflows/slack/shared.py:1602-1657 | the run that breaks coverage otherwise |
| `SlackBootstrap.RecordedExactly` | workflows/slack/shared.py:1602-1692 | over all runs the recorded oldest bound is the one last asked for iff a held job is never claimed again |
| `SlackBootstrap.WideningUndone` | workflows/slack/shared.py:1602-1825 | the run in which a second holder completes the job with its old window after a widening |
| `SlackBootstrap.CoversWhatWasAsked` | workflows/slack/shared.py:1559-1657 | then a completed, unskipped job has fetched everything from the bound last asked for to the seeded latest |
| `SlackBootstrap.DrainChannel` | workflows/slack/backfill.py:385-462 | the drain loop is a run of page steps; it stops at the page budget or at the end, having fetched exactly the listing from the old cursor to the new one |
| `SlackTick.MaxSlackTs` | workflows/slack/sync.py:216-230 | the first of the numerically greatest valid stamps, none iff there is no valid one |
| `SlackTick.PageWatermark` | workflows/slack/shared.py:1418-1425 | the greatest of the watermark passed in and the page's messages |
| `SlackTick.CommitFindsContinuation` | workflows/slack/sync.py:699-752 | whenever a tick with a cursor left commits, its continuation is pending or running iff no worker has ended it since the enqueue without its being opened again |
| `SlackTick.InFlightExactly` | workflows/slack/sync.py:699-759 | over all runs the continuation of a committing tick is pending or running iff no worker may end it between the enqueue and the commit |
| `SlackTick.EndedBetween` | workflows/slack/sync.py:699-759 | the run in which a worker finishes the continuation before the commit |
| `SlackTick.RequeueStores` | workflows/slack/backfill.py:463-476 | a requeue stores the resume point and opens the job again, whatever its status |
| `SlackTick.CheckpointMonotoneExactly` | workflows/slack/sync.py:744-759 | no step of any run, crashes included, lowers the checkpoint iff ticks of the channel do not overlap |
| `SlackTick.Overtaken` | workflows/slack/sync.py:541-759 | two overlapping ticks, the slower of which is about to lower the checkpoint |
| `SlackTick.Channel.SyncChannel` | workflows/slack/sync.py:541-759 | one tick is the four protocol steps; its checkpoint is the greatest of the old one and everything it read, one of them, and its continuation is in flight |
| `ChatTables.StoredGet` | workflows/google_chat/sync.py:674-867 | storing a message leaves its row and exactly its listed attachments and reactions |
| `ChatTables.DeletedGet` | workflows/google_chat/sync.py:870-887 | a tombstone leaves nothing of the message |
| `ChatTables.MessageDoes` | workflows/google_chat/sync.py:950-991 | from the message's own fields: a tombstone leaves nothing; a message with an id and text or attachments leaves its row, the last listing of each attachment and, if it has reaction summaries, of each reaction with an id, else no reaction; any other changes nothing |
| `ChatTables.ScanDetermined` | workflows/google_chat/sync.py:943-1000 | a scan's result does not depend on what the tables held for the messages it lists, half-written ones included |
| `ChatTables.ScanIdempotent` | workflows/google_chat/sync.py:943-1000 | scanning twice is scanning once |
| `ChatSync.Watermark` | workflows/google_chat/sync.py:1002-1015 | never below the stored watermark nor the newest message stored |
| `ChatSync.NewestExact` | workflows/google_chat/sync.py:952-992 | the newest is the greatest creation time of the messages that are no tombstones, none iff none has one |
| `ChatSync.RunWatermark` | workflows/google_chat/sync.py:985-1015 | a successful run leaves the watermark it found or the creation time of a message it read that is no tombstone, whichever is greater |
| `ChatSync.Space.StoreMessage` | workflows/google_chat/sync.py:950-991 | a failure between any two statements leaves only listed messages half-written |
| `ChatSync.Space.ReadPages` | workflows/google_chat/sync.py:925-1000 | the paging loop stops at the end or the budget, having stored exactly the pages it read |
| `ChatSync.Space.SyncSpace` | workflows/google_chat/sync.py:890-1034 | a successful run moves the resume point with its filter, a failed one leaves it; a stored token always fits the stored filter |
| `ChatSync.ResumeEquivalence` | workflows/google_chat/sync.py:917-1034 | any mixture of budgeted and failed runs, each with its own `since`, overlap and budget, whose last one succeeds and leaves no token has the tables of one unbounded scan under the filter the scan began with |
| `ChatSync.ResumeExactly` | workflows/google_chat/sync.py:506-559 | an empty token means a complete scan over all such sequences iff the last run has to have succeeded |
| `ChatSync.RunsNeeded` | workflows/google_chat/sync.py:994-1000 | k unfinished successful runs of budget m stand exactly at page k·m, whatever their other arguments, so P pages take at most ceil(P/m) |
| `ChatSync.CheckpointKept` | workflows/google_chat/sync.py:506-559 | over any sequence of runs tokens stay with the filter they were issued under and the watermark never decreases |
| `ChatSync.FailedFirstRun` | workflows/google_chat/sync.py:544-559 | a first run that stores a message's row and not its attachment leaves no token |
| `CalendarSync.UpsertKeepsFresh` | workflows/gsuite/calendar_sync.py:541-549 | writing what a later listing says keeps the table at or ahead of any earlier position |
| `CalendarSync.StepKeeps` | workflows/gsuite/calendar_sync.py:506-602 | begin, upsert, restart, commit and failure keep the token behind the table when runs do not overlap |
| `CalendarSync.RunKeeps` | workflows/gsuite/calendar_sync.py:506-602 | so does every sequence of runs |
| `CalendarSync.SafeExactly` | workflows/gsuite/calendar_sync.py:225-270 | over all histories the table agrees with or is ahead of the server up to the stored token, iff runs of the calendar do not overlap |
| `CalendarSync.Overtaken` | workflows/gsuite/calendar_sync.py:506-602 | the two overlapping runs that leave an event stale for good |
| `CalendarSync.LatestUpdate` | workflows/gsuite/calendar_sync.py:554-559 | the greatest `updated` of the events written |
| `CalendarSync.TokensMove` | workflows/gsuite/calendar_sync.py:508-575 | which token each listing uses and which one a finished run stores |
| `CalendarSync.Calendar.StorePage` | workflows/gsuite/calendar_sync.py:535-559 | every event with an id is written; an interruption keeps the token safe |
| `CalendarSync.Calendar.ListEvents` | workflows/gsuite/calendar_sync.py:513-565 | the paging loop ends, restarts at most once, and when nothing raises leaves the table fresh up to the opening of its last listing |
| `CalendarSync.Calendar.SyncCalendar` | workflows/gsuite/calendar_sync.py:506-602 | failed or not, the stored token stays safe; success stores the token of the last page, or else the listing's own, and makes the table fresh up to the opening of the last listing; at most one restart, only for a stored token; a failure leaves token and watermark |
| `Embeddings.EmbeddingText` | workflows/company_context_embeddings.py:182-188 | empty iff title and body are blank, never longer than either limit |
| `Embeddings.StripExact` | workflows/company_context_embeddings.py:183-187 | stripping takes only whitespace off and leaves none at either end |
| `Embeddings.TextShows` | workflows/company_context_embeddings.py:182-188 | the title comes first and the body is whole at the end when both fit |
| `Embeddings.TextCut` | workflows/company_context_embeddings.py:182-188 | as much of title, blank line and body as the limit allows, of one part if the other is blank |
| `Embeddings.PendingExactly` | workflows/company_context_embeddings.py:195-231 | pending iff title or body has a character other than a space and there is no row for this model and content hash |
| `Embeddings.PendingAgain` | workflows/company_context_embeddings.py:195-231 | a resolved document is pending again iff the model or its hash changes and it says something |
| `Embeddings.OrderAnswers` | workflows/company_context_embeddings.py:279-295 | succeeds iff the answers name exactly the indexes asked, and puts each answer at its index |
| `Embeddings.GroupBySource` | workflows/company_context_embeddings.py:241-253 | each group holds exactly the positions of the rows of its source, in order |
| `Embeddings.Store.StoreFailure` | workflows/company_context_embeddings.py:259-276 | the document stops being pending and no other does; its row has the model, the hash and the first 1000 characters of the reason; no other row changes |
| `Embeddings.Store.StoreEmbeddings` | workflows/company_context_embeddings.py:234-256 | every given document is resolved with its own vector, nothing else changes |
| `Embeddings.Store.EmbedSingly` | workflows/company_context_embeddings.py:349-383 | the fallback resolves each document as it deserves |
| `Embeddings.Store.EmbedBatch` | workflows/company_context_embeddings.py:336-393 | batch and fallback give the same rows; embedded + failed = documents |
| `Embeddings.Store.Prepare` | workflows/company_context_embeddings.py:316-334 | documents without text fail at once, the others are kept |
| `Embeddings.Store.RunOnce` | workflows/company_context_embeddings.py:312-416 | a run resolves every loaded document as if each were embedded alone, embedded + failed = loaded, and requeues iff the load was full; an aborted run has resolved some of them and touched no other row |
| `Embeddings.OneByOneAfter` | workflows/company_context_embeddings.py:312-393 | what embedding one document at a time leaves |
| `Embeddings.AfterUnique` | workflows/company_context_embeddings.py:312-393 | that description determines the table |
| `Embeddings.PendingAfter` | workflows/company_context_embeddings.py:195-231 | exactly the resolved documents stop being pending |
| `Embeddings.ChainEnds` | workflows/company_context_embeddings.py:395-416 | with no edits, k runs that each asked for another need k batches pending at the start: the chain ends |
| `Embeddings.ChainDrains` | workflows/company_context_embeddings.py:395-416 | a chain that has ended took floor(pending / batch) + 1 runs and left nothing pending |
| `LineReader.FindNewline` | services/workflow-python/workflow_host.py:449 | the first newline at or after the start, or none |
| `LineReader.SplitUnique` | services/workflow-python/workflow_host.py:446-464 | a stream has one division into lines |
| `LineReader.FirstUnique` | services/workflow-python/workflow_host.py:446-464 | a stream has one first line |
| `LineReader.Host.ReadProtocolLine` | services/workflow-python/workflow_host.py:446-464 | for every chunking, the first line of the remaining stream, empty iff the stream is; `search_from` skips no newline; a cancelled call loses nothing |
| `LineReader.Host.ReadAll` | services/workflow-python/workflow_host.py:499-520 | repeated calls return the stream split after each newline, then its tail, then empty |
| `Chunking.RFind` | workflows/console_workflow.py:145-146 | the last occurrence, or −1 |
| `Chunking.CutWindow` | workflows/console_workflow.py:141-149 | a window ends after its last paragraph, line or word break in its second half, best kind first |
| `Chunking.CutExactly` | workflows/console_workflow.py:141-149 | the same by characters: after the last blank line of the second half, else its last line break, else its last space, else at the end |
| `Chunking.SplitText` | workflows/console_workflow.py:137-154 | the greedy division into such windows, for every limit of at least 1 |
| `Chunking.SplitsUnique` | workflows/console_workflow.py:137-154 | there is only one |
| `Chunking.SplitsChunks` | workflows/console_workflow.py:137-154 | chunks concatenate to the text, are nonempty and within the limit, and all but the last exceed half of it |
| `Chunking.ChunkCount` | workflows/console_workflow.py:137-154 | hence (count − 1) · (limit + 1) + 2 ≤ 2 · length |
| `Chunking.BodyExactly` | workflows/console_workflow.py:64-65 | when nothing is left of the text, when all of it is delivered, and that body and footer fit the maximum |
| `Chunking.Assemble` | workflows/console_workflow.py:62-72 | raises iff nothing is left; otherwise the division of the body with the footer on its last chunk when it fits, else alone |
| `Chunking.FitsExactly` | workflows/console_workflow.py:67-72 | every message fits the chunk limit iff the footer does |
| `Chunking.OversizedFooter` | workflows/console_workflow.py:67-72 | a footer for which one does not |
| `Chunking.Reconstructs` | workflows/console_workflow.py:64-72 | the messages together read body, blank line if joined, footer |
| `Chunking.TaskBlocks` | workflows/console_workflow.py:120-134 | the body in sections that fit, then the footer |
| `Chunking.SlackMessages` | workflows/console_workflow.py:56-84 | Slack's messages carry body and footer, and only the last has blocks, which show its own part of the body |
| `Chunking.ChatMessages` | workflows/console_workflow.py:181-192 | Google Chat's messages carry body and footer |
| `ApiCredentials.ClientCredentials` | crates/centaur-api-server/src/api_clients.rs:315-357 | `invalid_request` iff both methods are used, nonempty parts on success, form fields taken as they are |
| `ApiCredentials.DecodeEncoded` | crates/centaur-api-server/src/api_clients.rs:341-346 | every form encoding of a text decodes to it |
| `ApiCredentials.RoundTrip` | crates/centaur-api-server/src/api_clients.rs:315-357 | any identifier and secret, form-encoded in any legal way and sent as HTTP Basic in any case and padding, come back |
| `ApiCredentials.StandardEncodes` | crates/centaur-api-server/src/api_clients.rs:340-346 | every text has such an encoding, the standard one |
| `ApiCredentials.HexExactly` | crates/centaur-api-server/src/api_clients.rs:341-346 | escapes use the hexadecimal digits in both cases and no other byte |
| `ApiCredentials.CharsAreUtf8` | crates/centaur-api-server/src/api_clients.rs:334-346 | encoded Unicode scalar values, one after another, pass the UTF-8 check |
| `ApiCredentials.Utf8IsChars` | crates/centaur-api-server/src/api_clients.rs:334-346 | and nothing else does |
| `ApiCredentials.SchemeExactly` | crates/centaur-api-server/src/api_clients.rs:323 | the scheme is Basic in any mixture of cases |
| `ApiCredentials.OtherScheme` | crates/centaur-api-server/src/api_clients.rs:319-324 | a header of another scheme, or without a space, counts as no Basic header |
| `ApiCredentials.PlainExactly` | crates/centaur-api-server/src/api_clients.rs:341-346 | form-decoding leaves a text alone iff nothing in it looks encoded |
| `ApiCredentials.RawExactly` | crates/centaur-api-server/src/api_clients.rs:330-347 | unencoded credentials come back iff the identifier has no colon and neither part has a plus sign or an escape |
| `ApiScopes.GrantedScopes` | crates/centaur-api-server/src/api_clients.rs:373-395 | all scopes when none are requested, an error iff one is not the client's, else the requested ones ascending without duplicates |
| `ApiScopes.Sort` | crates/centaur-api-server/src/api_clients.rs:392 | a sorted permutation |
| `ApiScopes.Dedup` | crates/centaur-api-server/src/api_clients.rs:393 | strictly ascending, the same elements |
| `ApiScopes.GrantUnique` | crates/centaur-api-server/src/api_clients.rs:373-395 | the grant depends only on the set of words requested and never exceeds the client's scopes |
| `ApiScopes.AscendingUnique` | crates/centaur-api-server/src/api_clients.rs:391-394 | an ascending list is determined by its elements |
| `ApiScopes.ClaimExactly` | crates/centaur-api-server/src/auth.rs:348-378 | the scope claim reads back as the list it was made of iff every scope is one word |
| `ApiScopes.WordsSplit` | crates/centaur-api-server/src/api_clients.rs:377 | white space separates words: splitting on both sides of it splits the whole |
| `ApiScopes.WordsOne` | crates/centaur-api-server/src/api_clients.rs:377 | a text without white space is one word |
| `ApiScopes.LeExactly` | crates/centaur-api-server/src/api_clients.rs:392 | the first differing character decides the order, and a prefix comes first |
| `ApiClients.Caller.Refresh` | crates/centaur-api-server/src/api_clients.rs:89-117 | succeeds iff the client exists, is enabled and has the token's secret; then reading remains iff the caller had it and "sessions:read" is among the client's scopes, and likewise writing |
| `ApiClients.StepKeeps` | crates/centaur-api-server/src/api_clients.rs:274-296 | issue and every operator action keep what tokens say true |
| `ApiClients.RunKeeps` | crates/centaur-api-server/src/api_clients.rs:274-296 | so does every history |
| `ApiClients.AcceptedIsLive` | crates/centaur-api-server/src/api_clients.rs:89-117 | in every history an accepted request has an enabled client and the present secret, can read iff "sessions:read" is in both grant and live scopes (likewise write), and its token is at most 3630 seconds old |
| `ApiClients.ScopesName` | crates/centaur-api-server/src/auth.rs:53-58 | which scope text names which capability, and that no other does |
| `ApiClients.RefusedExactly` | crates/centaur-api-server/src/api_clients.rs:93-108 | a token is refused iff it is too old, its client is gone or disabled, or the secret was replaced |
| `ApiClients.DeadForever` | crates/centaur-api-server/src/api_clients.rs:86-108 | expiry, deletion and rotation cannot be undone by any later action |
| `ApiClients.RevokesAll` | crates/centaur-api-server/src/api_clients.rs:86-108 | rotating or deleting kills every token issued to the client before |
| `ApiClients.SharedExactly` | crates/centaur-api-server/src/api_clients.rs:61-84 | two clients share a thread key iff one identifier with its colon begins the other |
| `ApiClients.NamespacesDisjoint` | crates/centaur-api-server/src/api_clients.rs:61-84 | colon-free identifiers share none |
| `EventStream.Check` | crates/centaur-api-server/src/api_clients.rs:133-139 | what one re-check concludes |
| `EventStream.MayReadExactly` | crates/centaur-api-server/src/api_clients.rs:93-112 | a stream may go on iff the client is enabled, has the token's secret, and "sessions:read" is in both the token's and the client's scopes |
| `EventStream.ReadAccessEnded` | crates/centaur-api-server/src/api_clients.rs:123-142 | the timed loop ends when the specification says |
| `EventStream.EndsWithToken` | crates/centaur-api-server/src/api_clients.rs:127-132 | less than a second, plus lateness, after the expiry |
| `EventStream.EndsAfterRevocation` | crates/centaur-api-server/src/api_clients.rs:132-137 | within thirty seconds, plus lateness, of a lasting revocation when lookups succeed |
| `EventStream.EndsEarlyOnlyIfEnded` | crates/centaur-api-server/src/api_clients.rs:135-141 | before the expiry only when a check said so; failed lookups change nothing |
| `EventStream.EndsExactly` | crates/centaur-api-server/src/api_clients.rs:127-132 | with prompt wake-ups, at the expiry plus the fraction of the second it was opened in, at most |
| `EventStream.OnTimeExactly` | crates/centaur-api-server/src/api_clients.rs:127-132 | sure to end by the expiry iff opened on a whole second |

## Left out

- The coordinator's loop over scopes, scope selection by environment flags, the workflow engine's own retries and idempotency keys: one scope is modelled at a time and workers may start at any moment.
- Document rendering: a document is the source content it was rendered from. Load, render and upsert of one document are one step, so two workers interleaving inside that step are not covered.
- Rows that stop being eligible or are deleted without a new stamp: their documents are not claimed to follow.
- Text keys are numbered by their rank, with 0 for the empty key; time zones and interval arithmetic are integers.
- HTTP clients, rate limits, retries inside clients, file downloads, metrics, logging and run-ledger rows.
- `updated_at`, run ids, priorities and claim limits of the job table: a claim may take any set of claimable jobs.
- `seed_channel_bootstrap_job` has no caller in the repository; it is modelled as any actor's step.
- The payload parsing of thread refresh jobs, and the enqueueing of thread refreshes from channel pages.
- Whether a continuation reopened after a failure still covers the old window: an enqueue may replace the payload of a failed job by a narrower one, so no claim is made that every Slack message is stored.
- Google Chat members, spaces and the age of a continuation; page boundaries of a listing are fixed while its token lives.
- `CalendarSync.Calendar.SyncCalendar`: the listing of calendars, event columns and the counters are not modelled; the server is a change log whose full listing includes cancelled events, as the client requests.
- The load order of pending documents: a load may be any distinct pending documents, as many as the limit allows.
- `Embeddings.Store.RunOnce`: transport errors are represented by incomplete answers, the one error the code itself raises.
- Drive, Linear and Attio syncs, whose watermarks an explicit argument may lower.
- Posting order, threads and request ids of delivered messages.
- Base64, SHA-256 and JWT signatures are parameters with the property used (a faithful code, no collisions).
- Selection of principals, metadata wrapping, and the stream error event that ends a cut stream.
