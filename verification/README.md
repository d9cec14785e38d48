# TootTok, modelled in Dafny

TootTok is a federated short-video server: a Rust back end (ActivityPub inbox, a Postgres job
queue, feeds, uploads) and a web client. This project models the parts of it whose correctness
is hardest to see from the code, and proves what those parts promise. SQL tables are maps and
sets, a SQL statement (or, for the inbox, one receive) is one atomic step, and clocks, ids,
failing statements and the order in which things arrive are parameters, so that the theorems
hold for every choice of them.

`dafny verify dfyconfig.toml` checks everything.

| files | component |
|---|---|
| `Inbox`, `InboxServer`, `InboxProperties`, `InboxEffects` | the federation inbox: idempotency gate, tombstones, the handlers, the follow API |
| `FollowProtocol` | any number of instances exchanging Follow, Accept and Undo |
| `JobQueue`, `JobQueueSafety` | the Postgres job queue under concurrent workers, reaper and retries |
| `Sanitizer`, `SanitizerLaws`, `EntityLaws`, `Hashtags` | captions: decode, strip, converge, escape; hashtag extraction |
| `Pagination`, `PaginationWalks` | keyset cursors, the feed walk and the comment walk |
| `RateLimiter` | the per-IP fixed window |
| `FileWalk`, `MediaGc`, `MediaGcLaws` | the media garbage collector and its directory walk |
| `LikeCounter` | the denormalised like counter under interleaved handlers |
| `EditTimeline` | the client's map from the final clip to its source segments |
| `ByteRanges`, `Durations`, `Numerals`, `Text` | range requests, ISO-8601 durations, numerals |

Each imperative operation is a method proved against a function or a property (the loops of
the sanitizer and of the hashtag scan, the table classes, the garbage collector, the rate
limiter, `resolveTime`); the theorems are about those functions and about runs of the state
machines built from them.

## What is proved

* **Follow protocol.** An invariant of every step of every instance: replaying what is on its
  way from follower to target on the target's row gives the follower's row. Hence convergence
  once the channels are empty, after any run, and no `accepted` before the target has processed
  that very Follow.
* **Inbox.** Any trace equals its first deliveries; Delete wins in every order; the activity
  ids of follow rows stay distinct although no constraint enforces it; no stored caption can
  turn into markup; all of it whichever statements of the handlers fail (for "Delete wins", other
  than the Delete's own). For the first delivery of each activity, and for the follow API, what
  every table holds afterwards, column by column (`InboxEffects`).
* **Job queue.** The timeout bump is fenced to the claim that made it, in every interleaving;
  attempts are bounded, which clips fail, what the reaper takes and what it spares, and how the
  back-off adds up.
* **Sanitizer.** The decoder undoes the escape; the exact length (33) up to which the eight
  passes always converge; sanitizing is idempotent exactly when the loop converged.
* **Pagination.** Both walks against the plain ordered list, with the exact condition under
  which cursors of whole seconds lose nothing (feeds) or repeat nothing (comments), and when a
  comment walk ends at all.
* **Rate limiter.** The sharp sliding bound `2 * limit - 1`, reached by a concrete history.
* **Garbage collector.** Exactly which files and rows a pass removes, for every row order and
  every pattern of failing removals.

Where the code does not do what one would expect, the code is modelled as it is, the failing
case is a lemma, and the exact condition is proved:

* A feed walk skips clips: cursors keep whole seconds, so a page that ends on a clip hides the
  older clips of that second (`SameSecondIsSkipped`, `SkippedClip`).
* A comment walk repeats comments instead, and may serve pages for ever. It ends if no second
  holds a whole page (`UncrowdedCommentsAreAllShown`) and never ends if some second holds a whole
  page not counting comments exactly on the second (`CrowdedWalkNeverEnds`). When ids follow time
  within a second, that is an equivalence (`CommentWalkEndsExactlyWhen`); when they do not, a gap
  remains in which the ids decide (`IdsMatter`).
* Waiting exactly `Retry-After` seconds is enough only on whole seconds of the window or in its
  last second (`WaitingAsToldSufficesExactlyWhen`, `WaitingAsToldCanFail`); one second more always is.
* An unlike that overtakes a like of the same actor leaves the counter one too high for good
  (`CounterCanDrift`, `DriftIsForGood`).
* A hashtag may appear or disappear through an apostrophe, which is escaped to `&#x27;` before
  extraction (`EscapeKeepsHashtagsExactlyWhen`, `ApostropheMakesHashtag`).
* A file shared by the rows of a deleted and a live clip is removed
  (`LiveFileSurvivesExactlyWhen`), and a live clip's file can be lost in two passes after one
  failed `metadata` call (`LiveFileLostInTwoPassesExactlyWhen`, `LiveFileCanBeLost`).
* A stale hand-back or a late retry revives a finished job (`FinishedJobRevivedExactlyWhen`,
  `StaleHandBackRevivesDeadJob`, `StaleRetryRevivesDoneJob`).
* A stranger's Create that claims the id of an object first survives its author's Delete
  (`ForeignCreateSurvivesDelete`), and a Delete that fails half-way is never completed
  (`FailedDeleteIsNeverCompleted`).
* A duration with a multi-byte character in front of a number panics
  (`ComponentPanicsExactlyWhen`, `AccentedDurationPanics`).

One comment in the source disagrees with the code, and the model follows the code: the retry
comment in `crates/server/src/worker.rs` (line 1020) says that attempts after the third
dead-letter, while with the default of five attempts the 15-minute wait is also imposed after
the fourth try.

## Model

| member | source | states |
|---|---|---|
| `InboxServer.Server.InboundBegin` | crates/federation/src/activity.rs:378-388 | inserts the activity id exactly if it is new and says whether it was; nothing changes when the insert fails |
| `InboxServer.Server.InboundFinish` | crates/federation/src/activity.rs:391-394 | stamps the logged activity as processed, or reports that it could not |
| `InboxServer.Server.FindFollow` | crates/db/src/follow.rs:180-191 | finds a follow row with this activity id exactly if there is one |
| `InboxServer.Server.ReceiveFollow` | crates/federation/src/activity.rs:442-511 | the row becomes requested, or accepted with an Accept logged and queued; tombstoned, unknown, remote and locked targets as the handler treats them |
| `InboxServer.Server.ReceiveAccept` | crates/federation/src/activity.rs:538-571 | an Accept of a known follow id flips that row to accepted and queues the backfill; the handler does not compare the sender |
| `InboxServer.Server.ReceiveReject` | crates/federation/src/activity.rs:574-595 | a Reject of a known follow id flips that row to rejected |
| `InboxServer.Server.ReceiveUndo` | crates/federation/src/activity.rs:598-641 | an Undo that names a known follow id removes that row; any other Undo is only logged |
| `InboxServer.Server.ReceiveDelete` | crates/federation/src/activity.rs:644-685 | the owner's clip is tombstoned and marked deleted, anyone else's Delete of it is ignored, an unknown object is tombstoned and a cached actor of that id marked deleted |
| `InboxServer.Server.ReceiveCreate` | crates/federation/src/activity.rs:688-809 | stores a sanitized clip unless tombstoned, known or not the sender's |
| `InboxServer.Server.ReceiveUpdate` | crates/federation/src/activity.rs:812-876 | refreshes the caption of the sender's own live clip only |
| `InboxServer.Server.ReceiveActivity` | crates/federation/src/activity.rs:359-371 | every activity type, duplicate or first, whichever statements fail, ends in the tables of `Inbox.Receive` and keeps follow ids unambiguous |
| `InboxServer.Server.Follow` | crates/server/src/federation.rs:590-640 | upserts the row, logs the Follow and queues it unless the target is local |
| `InboxServer.Server.Unfollow` | crates/server/src/federation.rs:671-708 | removes the row and queues the Undo of its follow id; refuses without a row or an id |
| `InboxProperties.ReceiveHasEffect` | crates/federation/src/activity.rs:441-876 | the frame of every receive: what may be logged, which clip rows may appear and how existing ones may change |
| `InboxProperties.ReceiveKeepsFollowIds` | crates/db/src/follow.rs:130-155 | receiving anything keeps the activity ids of follow rows distinct and logged |
| `InboxProperties.ApiFollowKeepsFollowIds` | crates/server/src/federation.rs:590-640 | following with a fresh id keeps them distinct and logged |
| `InboxProperties.ApiUnfollowKeepsFollowIds` | crates/server/src/federation.rs:671-708 | so does unfollowing |
| `InboxProperties.FetchFinds` | crates/db/src/follow.rs:180-191 | with distinct ids the lookup by id finds the very row that carries it |
| `InboxProperties.DuplicatesCollapse` | crates/db/src/activity.rs:56-77 | any trace has the effect of its first deliveries through the gate, whichever statements of the handlers fail |
| `InboxProperties.DeleteTakesEffectExactlyWhen` | crates/federation/src/activity.rs:644-685 | when a first Delete leaves its object gone, in terms of the owner and of the statements that fail |
| `InboxProperties.FailedDeleteIsNeverCompleted` | crates/federation/src/activity.rs:663-666 | an owner's Delete that fails between tombstone and clip leaves the clip live, however often it is delivered again |
| `InboxProperties.RunKeepsGone` | crates/federation/src/activity.rs:712-716 | no later receive of any kind makes a deleted object live |
| `InboxProperties.DeleteWins` | crates/federation/src/activity.rs:643-869 | a trace that contains the owner's Delete ends with the object gone, whatever comes after it and whatever fails; before it no stranger has created the object, and the Delete's own statements succeed |
| `InboxProperties.ForeignCreateSurvivesDelete` | crates/federation/src/activity.rs:655-675 | a concrete trace showing that the ownership premise is needed |
| `InboxProperties.UndoNamesFirstFollow` | crates/federation/src/activity.rs:119-141 | an Undo names the first follow of its object in document order, however nested, and none exactly if there is none |
| `InboxProperties.RunKeepsCaptionsInert` | crates/federation/src/note.rs:29-43 | whatever arrives, stored captions contain no markup character and decode once to text without `<` |
| `InboxEffects.UpsertColumns` | crates/db/src/follow.rs:130-155 | an upsert replaces the state, and the id only when it brings one |
| `InboxEffects.FollowIsAccepted` | crates/federation/src/activity.rs:448-510 | a first Follow of an open local account leaves the row accepted under the Follow's id and queues the Accept of that id to the follower; all other tables stay |
| `InboxEffects.FollowIsRequested` | crates/federation/src/activity.rs:471-508 | a first Follow of a locked account leaves the row requested and sends nothing |
| `InboxEffects.FollowFailsHalfWay` | crates/federation/src/activity.rs:471-508 | what an interrupted Follow leaves: the row in the state reached, no job, and a log entry that is never stamped |
| `InboxEffects.FollowIsNotOurs` | crates/federation/src/activity.rs:459-471 | a Follow of a tombstoned or remote account is only logged; one with an unknown actor fails |
| `InboxEffects.GateFailureLeavesNoTrace` | crates/federation/src/activity.rs:378-388 | an activity that fails at the gate changes nothing |
| `InboxEffects.CopyIsAcknowledged` | crates/federation/src/activity.rs:378-388 | a copy of a logged activity is answered as a success and changes nothing |
| `InboxEffects.AcceptFlips` | crates/federation/src/activity.rs:538-571 | a first Accept leaves exactly the row of that id accepted, and queues the backfill of its target unless queueing fails |
| `InboxEffects.RejectFlips` | crates/federation/src/activity.rs:574-595 | a first Reject leaves exactly the row of that id rejected; no other table changes but the log |
| `InboxEffects.UndoRemoves` | crates/federation/src/activity.rs:598-641 | a first Undo removes exactly the row of the follow it names |
| `InboxEffects.NothingToDo` | crates/federation/src/activity.rs:538-641 | an answer to an unknown follow, an Undo of anything else and any other activity only leave a processed log entry |
| `InboxEffects.StoredCaptionIs` | crates/federation/src/activity.rs:769-773 | captions are stored sanitized, and empty ones as absent |
| `InboxEffects.CreateStores` | crates/federation/src/activity.rs:688-809 | a Create that passes every guard stores a live clip with the sanitized text, the note's sensitivity and content warning |
| `InboxEffects.CreateIgnored` | crates/federation/src/activity.rs:706-766 | a Create that fails any guard is only logged |
| `InboxEffects.UpdateRefreshes` | crates/federation/src/activity.rs:840-872 | a first Update by the owner of a live clip replaces caption, sensitivity and content warning and nothing else |
| `InboxEffects.UpdateIgnored` | crates/federation/src/activity.rs:840-872 | any other Update is only logged |
| `InboxEffects.DeleteMarksClip` | crates/federation/src/activity.rs:658-677 | a first Delete by the owner tombstones the clip and marks it deleted, keeping its columns |
| `InboxEffects.DeleteByStrangerIgnored` | crates/federation/src/activity.rs:658-677 | anyone else's Delete of a known clip is only logged |
| `InboxEffects.DeleteMarksActor` | crates/federation/src/activity.rs:679-683 | a Delete of anything else leaves a tombstone and marks a known actor of that id deleted |
| `InboxEffects.ApiFollowIs` | crates/server/src/federation.rs:590-640 | a follow of a local actor is accepted at once and queues nothing; of a remote one it is requested and the Follow queued |
| `InboxEffects.ApiUnfollowIs` | crates/server/src/federation.rs:671-708 | the row goes and an Undo of the very follow it carried is queued; without such a row nothing changes |
| `FollowProtocol.StepKeepsInv` | crates/federation/src/activity.rs:441-641 | every follow, unfollow, delivery and re-delivery at any instance keeps the protocol invariant |
| `FollowProtocol.RedeliveryKeepsInv` | crates/federation/src/activity.rs:448-464 | a re-delivery is turned away at the gate |
| `FollowProtocol.RunKeepsInv` | crates/server/src/federation.rs:590-708 | the invariant holds after every run |
| `FollowProtocol.Convergence` | crates/federation/src/activity.rs:441-641 | after any run, once all channels are empty, follower and target hold no row or the same id in the same final state |
| `FollowProtocol.AcceptedOnlyAfterTarget` | crates/federation/src/activity.rs:537-571 | at no point is a remote follow accepted before its target processed that Follow |
| `JobQueue.JobTable.Create` | crates/db/src/job.rs:33-57 | the new row is free, has no attempts of five, and is due exactly from `run_after` on; no other row changes |
| `JobQueue.JobTable.ClaimNextDue` | crates/db/src/job.rs:125-136 | locks the oldest due row that is not locked by another statement, keeping its attempts, due time and error, or finds that none is due |
| `JobQueue.JobTable.MarkDone` | crates/db/src/job.rs:85-102 | the row, found by id alone, is done, free and never due again; attempts, due time and every other row stay |
| `JobQueue.JobTable.DeadLetter` | crates/db/src/job.rs:105-122 | the row, found by id alone, is dead, free and never due again, with the error; attempts, due time and every other row stay |
| `JobQueue.JobTable.HandBack` | crates/server/src/worker.rs:80-87 | the row, found by id alone and whatever its state, is free and due again as before, with attempts and error unchanged; every other row stays |
| `JobQueue.JobTable.ReapStaleJobs` | crates/server/src/worker.rs:122-160 | a running row locked for longer than the timeout counts an attempt and is requeued or killed, every other row stays as it is, and exactly the clips of the killed ones fail |
| `JobQueue.JobTable.BumpJobAfterFailure` | crates/server/src/worker.rs:397-434 | takes effect exactly if the row is running under the worker's lock; only then the clip fails |
| `JobQueue.JobTable.ScheduleDeliverRetry` | crates/server/src/worker.rs:1023-1056 | requeues with the back-off of the claimed copy's attempts, or kills |
| `JobQueueSafety.LockNamesTheHolder` | crates/server/src/worker.rs:397-406 | the lock names a worker exactly if that worker's claim is the row's latest |
| `JobQueueSafety.StepKeepsInv` | crates/server/src/worker.rs:72-160 | every step of every interleaving keeps the queue invariant |
| `JobQueueSafety.RunKeepsInv` | crates/server/src/worker.rs:291-311 | so does every run |
| `JobQueueSafety.TimeoutIsFenced` | crates/server/src/worker.rs:334-434 | after any run a timed-out worker's bump acts exactly on the claim that worker made, and otherwise changes neither row nor clip |
| `JobQueueSafety.MediaAttemptsWithinClaims` | crates/server/src/worker.rs:122-160 | each claim of a media job adds at most one attempt |
| `JobQueueSafety.RunningIffLocked` | crates/db/src/job.rs:85-136 | running iff `locked_by` set iff `locked_at` set, in every reachable state |
| `JobQueueSafety.AttemptsNeverDecrease` | crates/server/src/worker.rs:80-138 | no step lowers attempts; one that raises them raises them by one and ends a media job's claim |
| `JobQueueSafety.SweepSparesYoungLocks` | crates/server/src/worker.rs:122-138 | the reaper does not touch a job that is not running or whose lock is no older than the timeout |
| `JobQueueSafety.SweepReapsOldLocks` | crates/server/src/worker.rs:122-160 | it frees a running job with an older lock, counting one attempt, or kills it on its last |
| `JobQueueSafety.ClipFailsExactlyWhen` | crates/server/src/worker.rs:122-434 | in every state a clip fails exactly by a report that says so, by a timeout whose worker still holds the row's lock, or by a sweep that kills one of its jobs |
| `JobQueueSafety.ReportEndsClaim` | crates/server/src/worker.rs:291-434 | whatever a worker reports, and even if the report is lost, it may claim again, and no other claim ends |
| `JobQueueSafety.AttemptsAreBounded` | crates/server/src/worker.rs:930-950 | if requeueing reports hold their claim: attempts left while queued or running, reaps, bumps and retries at most `max_attempts`, and so many claims of a delivery |
| `JobQueueSafety.FinishedJobRevivedExactlyWhen` | crates/server/src/worker.rs:80-87 | in every state a done or dead job comes back exactly by a hand-back, or by a retry with attempts left, of a claim that names it and is no longer the row's |
| `JobQueueSafety.FinishedStaysFinished` | crates/server/src/worker.rs:1037-1048 | in every run in which those two statements hold their claim, a finished job stays finished |
| `JobQueueSafety.StaleHandBackRevivesDeadJob` | crates/server/src/worker.rs:80-87 | a run from the empty queue in which a stale hand-back requeues a job that the reaper has killed |
| `JobQueueSafety.StaleRetryRevivesDoneJob` | crates/server/src/worker.rs:1037-1048 | a run from the empty queue in which a late retry requeues a delivery that another worker has done |
| `JobQueueSafety.TryLadder` | crates/server/src/worker.rs:1023-1056 | the state, attempts and due time after each failed try of a delivery |
| `JobQueueSafety.FailingDeliveryDies` | crates/server/src/worker.rs:1023-1056 | `m >= 3` failures: dead after exactly `m` tries, with waits of 30 + 120 + 900 (m - 3) seconds |
| `JobQueueSafety.FailingDeliveryDiesInRun` | crates/server/src/worker.rs:930-950 | in every run of the queue in which a job is only claimed and reported as failed, whatever happens to other jobs: at most `m` claims, dead exactly after `m` failures, and not before those waits have passed |
| `Sanitizer.StripTagsScan` | crates/federation/src/note.rs:48-62 | the scan keeps exactly the characters outside every tag, trimmed |
| `Sanitizer.DecodeScan` | crates/federation/src/note.rs:67-94 | the cursor loop computes the decoder |
| `Sanitizer.EscapeScan` | crates/federation/src/note.rs:154-167 | the loop escapes every character |
| `Sanitizer.StripHtmlTags` | crates/federation/src/note.rs:29-43 | the loop is at most eight passes, stopping at a fixpoint, then the escape |
| `SanitizerLaws.DecodeUndoesEscape` | crates/federation/src/note.rs:67-167 | decoding an escaped text returns it, for every text |
| `SanitizerLaws.EscapeIsInjective` | crates/federation/src/note.rs:154-167 | different texts escape differently |
| `SanitizerLaws.ChangingPassShrinks` | crates/federation/src/note.rs:31-38 | a pass that changes the text makes it shorter |
| `SanitizerLaws.LaterPassShrinks` | crates/federation/src/note.rs:107-151 | from the second pass on by at least three characters |
| `SanitizerLaws.FollowedPassShrinksByFour` | crates/federation/src/note.rs:107-151 | and by four if another changing pass follows |
| `SanitizerLaws.FollowedFirstPassShrinksByTwo` | crates/federation/src/note.rs:48-62 | the first pass by two if another changing pass follows |
| `SanitizerLaws.UnconvergedIsLong` | crates/federation/src/note.rs:29-43 | a text that has not converged after `n` passes has at least `4n + 2` characters |
| `SanitizerLaws.ShortInputsConverge` | crates/federation/src/note.rs:29-43 | every input of at most 33 characters converges within the eight passes |
| `SanitizerLaws.ThirtyFourCharactersNeedNotConverge` | crates/federation/src/note.rs:29-43 | a 34-character input that does not: the bound is exact |
| `SanitizerLaws.OutputIsInert` | crates/federation/src/note.rs:29-43 | converged or not, the output has no markup character and decodes once to text without `<` |
| `SanitizerLaws.IdempotentExactlyWhenConverged` | crates/federation/src/note.rs:29-43 | sanitizing twice is sanitizing once exactly if the loop converged |
| `SanitizerLaws.ShortCaptionsAreIdempotent` | crates/federation/src/note.rs:29-43 | so it is for every input of at most 33 characters |
| `EntityLaws.DecimalReference` | crates/federation/src/note.rs:139-149 | `&#`, digits and `;` decode to the character of that decimal number, leading zeros or not; a number that is no character is left alone |
| `EntityLaws.HexReference` | crates/federation/src/note.rs:123-138 | the same for `&#x` or `&#X` and hexadecimal digits of either case |
| `EntityLaws.PrintedReference` | crates/federation/src/note.rs:139-149 | every character printed as its number decodes to itself |
| `EntityLaws.MalformedNumberStays` | crates/federation/src/note.rs:139-151 | a decimal reference without digits, with other characters among them or without a semicolon is left alone |
| `EntityLaws.NamedReferenceDecodes` | crates/federation/src/note.rs:107-122 | each of the seven names decodes to its character |
| `EntityLaws.OtherCharactersStay` | crates/federation/src/note.rs:72-91 | an `&` that starts no reference stays, and so does every other character |
| `EntityLaws.EscapeTable` | crates/federation/src/note.rs:154-167 | the five characters replaced and by what; all others stay |
| `EntityLaws.PlainText` | crates/federation/src/note.rs:48-65 | text without brackets is kept outside tags and dropped inside them |
| `EntityLaws.TagVanishes` | crates/federation/src/note.rs:48-65 | a tag vanishes with everything it encloses, balanced tags included |
| `EntityLaws.UnmatchedBrackets` | crates/federation/src/note.rs:45-65 | an unclosed tag swallows the rest; a stray `>` is text |
| `Text.TrimRemovesPadding` | crates/federation/src/note.rs:64-64 | trimming removes exactly the white space around a text |
| `Hashtags.ExtractHashtags` | crates/db/src/hashtag.rs:12-35 | the nested loops return the first ten distinct lowercased tag runs |
| `Hashtags.RunIsMaximal` | crates/db/src/hashtag.rs:21-27 | a run is the longest stretch of tag characters behind its `#` |
| `Hashtags.ExtractIsFirstTenDistinct` | crates/db/src/hashtag.rs:12-35 | no duplicates, first occurrences in order, at most ten, and all of them if there are fewer |
| `Hashtags.WordIsHashtag` | crates/db/src/hashtag.rs:17-32 | `#` and the longest word of letters, digits and underscores behind it are one hashtag, in lower case |
| `Hashtags.BareHashIsNoHashtag` | crates/db/src/hashtag.rs:26-32 | a `#` without such a word is none |
| `Hashtags.DistinctIsFirstOccurrences` | crates/db/src/hashtag.rs:26-31 | the accumulated tags are the first occurrences of the runs |
| `Hashtags.EscapeKeepsHashtags` | crates/server/src/upload.rs:198-199 | without apostrophes, extracting from the escaped caption is extracting from the caption |
| `Hashtags.EscapeKeepsHashtagsExactlyWhen` | crates/server/src/upload.rs:198-199 | with one apostrophe, exactly when its `x27` is harmless |
| `Hashtags.ApostropheMakesHashtag` | crates/server/src/upload.rs:198-199 | every caption without `#` but with an apostrophe gains exactly the hashtag `x27` |
| `Hashtags.ItsMakesHashtag` | crates/server/src/upload.rs:198-199 | for instance "it's" |
| `Pagination.FeedLimit` | crates/server/src/social.rs:132-138 | always 1 to 50, as asked for within that, 20 by default |
| `Pagination.PageLimit` | crates/server/src/social.rs:132-138 | a size within bounds is honoured; one beyond the signed range wraps and becomes 1 |
| `Pagination.CursorRoundTrip` | crates/server/src/social.rs:124-129 | the parser undoes the printer exactly for seconds that are not negative and that chrono represents, and refuses every other printed cursor |
| `Pagination.CursorText` | crates/server/src/social.rs:124-129 | a cursor is two decimal numbers around a dash |
| `Pagination.CommentsLimit` | crates/server/src/social.rs:843-847 | always 1 to 100, as asked for within that, 50 by default |
| `Pagination.OrderedIsSorted` | crates/db/src/feed.rs:74-76 | the plain list: every row once, strictly ordered |
| `Pagination.OrderedColumns` | crates/db/src/feed.rs:74-76 | feeds run from new to old and comments from old to new, rows of one instant by id in the same direction |
| `Pagination.PastIsTail` | crates/db/src/feed.rs:67-76 | the rows past a cursor are a tail of that list |
| `PaginationWalks.WalkAdvances` | crates/server/src/social.rs:181-195 | each cursor leads further down the feed, so the walk terminates |
| `PaginationWalks.WalkIsSubsequence` | crates/db/src/feed.rs:34-86 | a feed walk is strictly falling, repeats nothing and is a subsequence of the list |
| `PaginationWalks.BrowsedFeedIsWalk` | crates/server/src/social.rs:142-158 | a client that sends each printed `next_cursor` back collects exactly the walk |
| `PaginationWalks.WalkShowsEverythingExactlyWhen` | crates/server/src/social.rs:187-192 | it is the whole list exactly if every page boundary resumes with the next row |
| `PaginationWalks.EveryWalkShowsEverythingExactlyWhen` | crates/server/src/social.rs:132-195 | for every page size at once, exactly if every row resumes with its successor |
| `PaginationWalks.WholeSecondsLoseNothing` | crates/db/src/feed.rs:34-86 | with whole-second timestamps nothing is lost, for every page size |
| `PaginationWalks.SameSecondIsSkipped` | crates/server/src/social.rs:187-192 | when a page ends on a clip, the walk never shows the older clips of that second (nor, on the second itself, those with a larger id) |
| `PaginationWalks.SkippedClip` | crates/server/src/social.rs:189-190 | two clips of one second, one of them never shown |
| `PaginationWalks.FeedShowsEachClipOnce` | crates/db/src/feed.rs:132-165 | in each feed every visible clip is shown once and no other (whole seconds) |
| `PaginationWalks.FeedShowsOnlyVisible` | crates/db/src/feed.rs:51-66 | whatever the timestamps, a walk shows only public clips, not deleted, ready or remote, of authors neither suspended nor deleted, and per feed only accepted follows, local authors or the tag |
| `PaginationWalks.FeedShowsAllVisible` | crates/db/src/feed.rs:51-86 | on whole seconds it shows every such clip |
| `PaginationWalks.NothingOmitted` | crates/server/src/social.rs:854-856 | a comment cursor omits no comment after the last one shown |
| `PaginationWalks.BrowsedCommentsAreShown` | crates/server/src/social.rs:895-900 | a client that sends each printed `next_cursor` back collects exactly the comments shown |
| `PaginationWalks.ShownIsPrefix` | crates/server/src/social.rs:839-900 | after any number of pages the comments shown are a prefix of the list, all of it once a page is short |
| `PaginationWalks.CommentPagesAreTheListExactlyWhen` | crates/server/src/social.rs:895-900 | the pages are the list exactly once, exactly if every boundary falls on a whole second |
| `PaginationWalks.EveryCommentWalkIsTheListExactlyWhen` | crates/server/src/social.rs:843-900 | for every page size at once, exactly if every comment falls on a whole second (the last may lie before 1970) |
| `PaginationWalks.WholeSecondsRepeatNothing` | crates/server/src/social.rs:839-900 | in particular with whole-second timestamps |
| `PaginationWalks.UncrowdedCommentsAreAllShown` | crates/server/src/social.rs:839-900 | if no second holds a whole page, the walk ends within one page per comment and has shown all |
| `PaginationWalks.CrowdedWalkNeverEnds` | crates/server/src/social.rs:895-900 | the walk never ends if some second holds a whole page of comments that are not on the second itself, for all comments and page sizes |
| `PaginationWalks.CommentWalkEndsExactlyWhen` | crates/server/src/social.rs:839-900 | when ids follow time within a second, the walk ends exactly if no second holds a whole page of comments that are not on the second itself |
| `PaginationWalks.IdsMatter` | crates/server/src/social.rs:895-900 | without that premise two comments can be served for ever, two per page, though only one of them is inside its second |
| `PaginationWalks.OneCommentForEver` | crates/server/src/social.rs:895-900 | for instance one comment at half past the second, one per page |
| `RateLimiter.Limiter.Check` | crates/server/src/ratelimit.rs:86-109 | the verdict and the new window of this IP; no other window changes |
| `RateLimiter.CountIsExact` | crates/server/src/ratelimit.rs:93-108 | the counter is the number of calls admitted in the window, at most the limit |
| `RateLimiter.SlidingBound` | crates/server/src/ratelimit.rs:86-109 | at most `2 * limit - 1` admitted calls in any half-open 60 seconds |
| `RateLimiter.SlidingBoundIsReached` | crates/server/src/ratelimit.rs:93-98 | a history with exactly that many, for every limit |
| `RateLimiter.AdmittedAgainExactlyWhen` | crates/server/src/ratelimit.rs:93-106 | after a refusal the next call is admitted exactly once the window has ended |
| `RateLimiter.SecondsTold` | crates/server/src/ratelimit.rs:99-105 | the answer is the whole seconds left of the minute, at least one and at most 60 |
| `RateLimiter.LateReadingCounts` | crates/server/src/ratelimit.rs:93-105 | a clock reading from before the window's start counts like one at its start |
| `RateLimiter.WaitingAsToldSufficesExactlyWhen` | crates/server/src/ratelimit.rs:100-104 | when waiting exactly the announced seconds is enough |
| `RateLimiter.WaitingAsToldCanFail` | crates/server/src/ratelimit.rs:100-104 | a history from the empty limiter, for every limit, after which waiting exactly the announced 59 seconds is refused again |
| `RateLimiter.OtherIpsDoNotMatter` | crates/server/src/ratelimit.rs:88-92 | a window depends on the calls of its own IP alone |
| `RateLimiter.SlidingBoundForEveryIp` | crates/server/src/ratelimit.rs:86-109 | the sliding bound for every IP in every mixed history |
| `RateLimiter.RefusedThenAdmitted` | crates/server/src/ratelimit.rs:99-105 | one second more than announced is always enough, whatever other IPs do |
| `FileWalk.WalkFiles` | crates/server/src/worker.rs:272-289 | every regular file under the root once and none missing; an error exactly if a directory on the way is unreadable; nothing for a root that cannot be examined |
| `FileWalk.ReadDir` | crates/server/src/worker.rs:278-286 | the entries of one directory, split into directories and files |
| `MediaGc.MediaStore.SweepRows` | crates/server/src/worker.rs:208-227 | the rows and files left by the loop over the asset rows, in any order and whichever `metadata`, removals and deletions fail |
| `MediaGc.MediaStore.SweepOrphans` | crates/server/src/worker.rs:232-250 | the files left by the loop over one root |
| `MediaGc.MediaStore.Collect` | crates/server/src/worker.rs:178-251 | the rows and files left by a whole pass |
| `MediaGcLaws.CollectedExactly` | crates/server/src/worker.rs:178-251 | a file is gone exactly if it was a deleted clip's or a stale orphan under a searched root |
| `MediaGcLaws.LiveFileSurvivesExactlyWhen` | crates/server/src/worker.rs:208-219 | a live clip's file survives exactly if no deleted clip's row names the same path |
| `MediaGcLaws.YoungFileSurvives` | crates/server/src/worker.rs:253-269 | an unreferenced file younger than 3600 seconds, undated or dated in the future survives |
| `MediaGcLaws.StaleOrphanRemoved` | crates/server/src/worker.rs:229-250 | every unreferenced file of 3600 seconds or more under `original` or `renditions` is removed |
| `MediaGcLaws.FaultyFileSurvives` | crates/server/src/worker.rs:208-250 | a file that cannot be removed or examined survives |
| `MediaGcLaws.ElsewhereSurvives` | crates/server/src/worker.rs:229-250 | unreferenced files outside `original` and `renditions` survive |
| `MediaGcLaws.RowsKept` | crates/server/src/worker.rs:208-227 | with separate paths exactly the rows of live clips whose file can be examined remain, and those that cannot be deleted |
| `MediaGcLaws.SharedPathLeavesDanglingRow` | crates/server/src/worker.rs:208-227 | with a shared path a live row may be left without its file |
| `MediaGcLaws.LiveFileLostInTwoPassesExactlyWhen` | crates/server/src/worker.rs:208-250 | when a live clip's file is lost in two passes: its `metadata` failed in the first, which deleted its rows, and the second finds a stale orphan |
| `MediaGcLaws.LiveFileCanBeLost` | crates/server/src/worker.rs:208-250 | a file and two passes in which that happens |
| `MediaGcLaws.SecondPassChangesNothing` | crates/server/src/worker.rs:178-251 | a second pass at the same time, in any order, changes nothing |
| `LikeCounter.Clip.Like` | crates/server/src/social.rs:427-519 | idempotent; counts and notifies once; keeps the counter equal to the rows |
| `LikeCounter.Clip.Unlike` | crates/server/src/social.rs:522-583 | idempotent; keeps the counter equal to the rows |
| `LikeCounter.RunKeepsBalance` | crates/server/src/social.rs:444-576 | in every interleaving, with failing statements and deletion, likes, pending, lost and floored updates balance |
| `LikeCounter.CounterUnderInterleaving` | crates/server/src/social.rs:444-576 | on a live clip without failures the counter is rows plus pending decrements minus pending increments plus floored ones |
| `LikeCounter.FloorNeedsOvertaking` | crates/server/src/social.rs:556-559 | a decrement meets zero only while an increment is pending |
| `LikeCounter.AtRestNeverTooLow` | crates/server/src/social.rs:444-576 | at rest the counter is never below the rows, and equal exactly if no decrement was floored |
| `LikeCounter.CounterCanDrift` | crates/server/src/social.rs:470-559 | a run after which the counter is one too high |
| `LikeCounter.DriftIsForGood` | crates/server/src/social.rs:470-559 | once a decrement has met a zero, the counter is too high at every later rest |
| `LikeCounter.DeletedClipIsFrozen` | crates/server/src/social.rs:444-576 | once the clip is deleted no interleaving changes its counter |
| `LikeCounter.SerialCounterIsExact` | crates/server/src/social.rs:427-583 | whole handlers one after the other leave the counter equal to the rows |
| `EditTimeline.ManifestDuration` | web/src/lib/editor.ts:56-58 | the sum of the segment durations |
| `EditTimeline.ResolveTime` | web/src/lib/editor.ts:61-86 | the loop returns the segment that contains the time, clamped at the end |
| `EditTimeline.WindowIsDuration` | web/src/lib/editor.ts:51-53 | a source time lies in the trim window exactly if it plays within the duration |
| `EditTimeline.ResolveLandsInWindow` | web/src/lib/editor.ts:61-79 | a time of the clip lands in a trim window, and playing from there is that time |
| `EditTimeline.ResolveUndoesFinalTime` | web/src/lib/editor.ts:61-79 | every source time of a trim window is reached, at its own final time |
| `EditTimeline.ResolveKeepsOrder` | web/src/lib/editor.ts:66-79 | the map is strictly increasing, segment first and source time second |
| `EditTimeline.ResolveOutside` | web/src/lib/editor.ts:80-86 | times past the end, before the start, and the empty manifest |
| `Numerals.UnsignedRoundTrip` | crates/server/src/assets.rs:68-77 | a printed natural parses back exactly if it fits the type |
| `Numerals.I64RoundTrip` | crates/server/src/social.rs:126-127 | so does a printed integer, in 64 bits |
| `Numerals.Signs` | crates/server/src/assets.rs:68-77 | a plus sign is allowed, a minus sign only for signed numbers, and a number needs a digit |
| `Numerals.StrayCharacter` | crates/server/src/assets.rs:68-77 | any other character makes it no number |
| `ByteRanges.ParseByteRange` | crates/server/src/assets.rs:53-99 | whatever is accepted lies within the file |
| `ByteRanges.FromToParses` | crates/server/src/assets.rs:79-86 | `bytes=a-b` is clamped, and refused exactly if empty, past the end or overflowing (section 2.1 of RFC 7233) |
| `ByteRanges.FromParses` | crates/server/src/assets.rs:81-90 | `bytes=a-` runs to the end |
| `ByteRanges.SuffixParses` | crates/server/src/assets.rs:82-96 | `bytes=-n` is the last `n` bytes, or the whole file |
| `ByteRanges.HeaderVariants` | crates/server/src/assets.rs:57-61 | neither white space around the header nor the case of the unit matters |
| `ByteRanges.PaddedBound` | crates/server/src/assets.rs:68-77 | nor does white space around a number |
| `ByteRanges.Refused` | crates/server/src/assets.rs:54-67 | several ranges, no dash, neither bound and an empty file are refused |
| `ByteRanges.OtherUnitRefused` | crates/server/src/assets.rs:58-60 | so is any unit that differs from `bytes=` in more than case |
| `ByteRanges.ServedFromTo` | crates/server/src/assets.rs:199-205 | the body holds exactly the requested positions of the file |
| `ByteRanges.ServedSuffix` | crates/server/src/assets.rs:199-205 | a suffix request is answered with the last bytes |
| `ByteRanges.PiecesMakeTheFile` | crates/server/src/assets.rs:53-205 | any split into consecutive requests is served in full and the bodies make the file |
| `Durations.ParseComponent` | crates/federation/src/note.rs:432-449 | the loop computes the component, or panics where the byte slice starts inside a character |
| `Durations.ComponentSumsTokens` | crates/federation/src/note.rs:431-449 | every number with the unit counts, in either case; none means no component |
| `Durations.DurationRoundTrip` | crates/federation/src/note.rs:411-429 | printing any duration, with any parts left out, and parsing it gives its seconds (Appendix A of RFC 3339) |
| `Durations.PrintedNumberIsSeconds` | crates/federation/src/note.rs:411-415 | a printed natural number is that many seconds |
| `Durations.PlainNumberIsSeconds` | crates/federation/src/note.rs:411-415 | so is every plain decimal number, with or without a plus sign and white space around it |
| `Durations.DecimalValue` | crates/federation/src/note.rs:413-415 | digits, a point and digits, either side possibly empty, are worth what moving the point says |
| `Durations.NegativeNumberIsRefused` | crates/federation/src/note.rs:413-415 | a negative plain number is refused; minus nought is nought |
| `Durations.FractionalSeconds` | crates/federation/src/note.rs:417-429 | `PT`, digits, a point, digits and `S` give the fraction of seconds |
| `Durations.OtherTextIsNoDuration` | crates/federation/src/note.rs:413-417 | text that starts like neither a number nor `P` is no duration |
| `Durations.CommaSpoilsNumber` | crates/federation/src/note.rs:440-445 | a comma is taken as part of a number, which it spoils |
| `Durations.ComponentPanicsExactlyWhen` | crates/federation/src/note.rs:439-447 | parsing panics exactly if a number with the unit, possibly empty, stands right behind a multi-byte character and all before it are well-formed |
| `Durations.AsciiDurationNeverPanics` | crates/federation/src/note.rs:411-449 | an ASCII duration never panics |
| `Durations.AccentedDurationPanics` | crates/federation/src/note.rs:439-447 | for instance `PTéS`, and the same with any other multi-byte character |

## Left out

- HTTP signatures, key handling, URL parsing and fetching: a sender's identity is taken as verified and ids as distinct.
- The egress guard, sessions, administration, reports, search, profiles, settings: guard branches and plain CRUD.
- One receive is one step: the tombstone test and the insert of a Create are separate statements in the source.
- Backfill, which stores clips without a tombstone test, is outside the delete-wins theorem.
- Deletion of an actor is not monotone (a later fetch revives the row); only clip deletion is claimed to be.
- First deliveries of Follow and Undo out of order: the code does not converge under them.
- FollowProtocol.Convergence: first deliveries in which a statement that the message needs fails are left out, because the gate keeps a failed activity from ever being processed; ignored failures are covered.
- Failing statements inside the follow API handlers, and follows of actors that are fetched first.
- `done` and `dead` are not claimed to be final: the reporting statements match rows by id only.
- Probing, transcoding and storing of media, and the notes and activities as JSON documents.
- Bookmarks, which order by bookmark time and hand out clip time as cursor; the trending score.
- Changes to the tables between two pages of a walk; the walks are over fixed tables.
- Other counters (comments, shares) and comment likes, which repeat the like counter's statements.
- Floating point: durations and the edit timeline use exact reals; exponents, `inf` and `nan` in a plain duration are not read.
- Non-ASCII header values, whose slicing by byte would be an error in the source.
- Segments with a speed that is not positive, for which the client's division is meaningless.
- JobQueue.JobTable.ClaimNextDue: which rows concurrent statements hold locked is a parameter, because transactions are not modelled.
- Client address resolution of the rate limiter, and the memory its map takes.
