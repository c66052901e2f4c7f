# pluto_feed: verified model

pluto_feed is a small social feed: posts, likes, comments, follows, a hot board, and sign-in with rotating
refresh tokens.  Counts are kept asynchronously through an outbox, a message broker and an idempotent
consumer; reads go through a cache with a bloom filter in front; lists are paged with opaque cursors; Redis
keeps the rate limiters and the hot board.  This project models those parts in Dafny and proves what they
promise, over every input, every run or every reachable state.  `dafny verify dfyconfig.toml` checks all of it.

## How it is laid out

- `Model`: rows, results, the constants shared by several parts.
- `Interactions`: the tables and the transactions on them; the ledger invariant (rows = whole outbox,
  counts = processed part of the outbox).  Outbox rows are kept in commit order and carry the auto-increment
  id they were given, which may come in another order; only `ORDER BY id` reads it.
- `Pipeline`: the step system.  Any interleaving of client transactions, the relay's round, the publisher's
  confirm channel, the broker, the consumer, and their failures: publish errors, broker rejections, confirm
  timeouts, a closed channel, failed marks, failed transactions, commits whose answer is lost, redelivery to
  the head of the queue, dead-lettering, a restart at any point.  Its inductive invariant is `Pipeline.Inv`.
- `Delivery`, `Snapshot`, `Drain`: no loss, counts as snapshots of the past, and the draining measure.
- `Records`: the tables told from the clients' calls alone, and what the counts come to in the end.  `Consumer`: what
  the consumer is sent and what it dead-letters.  `Rounds`: what a relay round sends and marks.
- `StaleConfirmation`, `TimeoutLoss`: how an event is lost, and on exactly which channels that can happen.
- `SilentNack`, `SwappedIds`: runs that apply events out of order.  `GivingUp`, `IdOrder`: exactly when giving up on
  an event, and exactly when ids that commit out of order, allow it.
- `Worker`: the store, the publisher, `relayOnce` and the consumer loop as methods over mutable state, each
  proved to be a run of the step system.
- `Bloom`, `PostCache`, `PostService`, `CacheRace`: the bloom filter, the post detail read path one call at a
  time (and the same as code), and one cache key under arbitrary interleaving.
- `Cursor`, `Keyset`, `Feed`: the cursor codec, paging over a fixed and over a changing table, the five lists
  and the batched assembly of their pages, the hot list's result cache.
- `RateLimit`, `Limiter`: both limiters against a plain count over the whole request log, then as code.
- `HotBoard`, `HotFeed`, `Follow`, `Tokens`: minute buckets and ranking, the hot list from end to end, follow
  counters, refresh-token rotation.

"Misattributed" below means that a Publish took the positive reply to another event for its own; "given up"
that the consumer settled, as failed, an event it had not applied; a run is orderly if neither has happened
and every fetch has returned the rows that come next in commit order.

Where the code changes state step by step the project has a class or a loop whose contract states the new fields
outright and equates them with a function on values; the theorems are about that function.  History variables (`stale`, `nacked`, `shuffled`,
`missed`, `accepted`, `survived`, ...) record what happened; no modelled branch reads them.

## What the proofs found

Where code and comments disagree, the model follows the code.

- *Marked does not always mean delivered.*  `Publish` takes the next confirmation without comparing delivery
  tags.  After d timeouts on a channel it reads the reply for the message published d places earlier
  (`ConfirmationAttribution`), so it reads its own exactly when d = 0.  With d > 0 an event can be marked and
  then lost for good (`LossIsReachable`, `GoneForever`), and the threat is exact: on an open channel the state
  before such a loss can be reached without any further timeout, disconnection or restart iff d > 0
  (`LossIffTimedOut`).  While no reply was misattributed nothing is lost (`NoLoss`).
- *An empty dead-letter queue is not enough for ordered counts.*  A Nack on a channel that has closed
  dead-letters nothing, and a delivery already received behind it can then be applied first
  (`EmptyDlqIsNotEnough`).  `SnapshotCounts` therefore speaks of orderly runs, and `OvertakenIff` says when
  giving up on an event lets later ones overtake it: exactly when what is left in the inbox (if the Nack is
  lost) or in the rest of the queue, on the wire, among the relay's marks and its unread replies (if it is
  not) is not covered by known events.  That the condition suffices needs no further assumption (`OrderKept`);
  that it is necessary is shown where the rows still to be marked are in id order, and, if only the unread
  replies break it, where no Publish on the channel has timed out.
- *The order of auto-increment ids matters, but only among rows not yet marked.*  A fetch continues in commit
  order exactly when none of the rows it has room for has a larger id than a row committed later
  (`FetchInCommitOrder`), and from a pipeline at rest running on applies an event before an earlier one exactly
  when the unmarked rows are not in id order (`DisorderIff`).  Then the counts can be the row counts of no
  moment at all (`IdOrderNeeded`).  Nothing is lost or miscounted for good.
- *Two timed-out Publishes on one channel can stall the consumer.*  The confirmation listener has one slot; a
  second unread reply blocks the connection's reader, and what is queued stays queued until the next Publish,
  a disconnection or a restart (`LeftoverReplies`, `StallStays`).  With at most one timeout a failure-free
  schedule drains everything (`ScheduleDrains`).
- *Overlapping deletions of one comment.*  The transaction never checks that its DELETE removed a row.  If its
  read is a snapshot, the rest of it keeps the ledger exactly when the comment is still there
  (`SnapshotDelete`); the other results assume transactions that behave as if run one after the other.
- *A post looked up before it exists stays hidden for up to thirty seconds*, because creating it does not delete
  the empty entry.  This is the only exception to transparency when Dels work, and it is exact (`Transparent`).
- *The sliding window counts rejected requests.*  The comment in `ratelimit.go` says a rejected request is not
  written; the transaction writes before it counts (`RejectedRequestsCount`).  It decides as the limiter of the
  comment would exactly when every rejected request has `limit` allowed ones in its window
  (`RecordingRejectionsMatters`).
- *The hot board covers eleven to twelve minutes, not the sixty of its comment* (`CountedWindow`,
  `SixtyIsTwelve`), unless every EXPIRE of some minute failed: that bucket stays for ever, and sixty buckets
  then differ from twelve (`SixtyIsTwelveIff`).
- *The bloom filter's guard against a zero second hash* comes before the reduction modulo m.  With two or more
  probes they all fall on one bit exactly when m divides the second hash (`GuardIsNotEnough`), and that happens
  (`GuardFails`: the empty key with three bits).
- *Cursors round-trip exactly for times within int64 nanoseconds*; outside that range they wrap
  (`CursorRoundTrip`).
- *Following nobody*: the following feed answers an empty page even to a malformed cursor
  (`FollowingPageIsList`).
- *Refresh tokens are one-use only with a cache, non-overlapping calls and working Dels*
  (`AcceptedAtMostOnce`, `DegradedModeReplays`, `OverlapForks`, `RevocationMatters`).  The project README
  promises degraded service when a component is absent; a configured cache that cannot be read refuses the
  refresh instead.
- *The author row must exist*: no modelled history loses one, but in such a state the same post would first be
  served with a placeholder and then, from the cache, be reported missing (`MissingAuthorAnswersTwice`).

## Model

| member | source | states |
|---|---|---|
| Interactions.Conservation | internal/repository/interaction_repo.go:14-19 | Whenever the ledger is balanced, a count column plus the deltas of the events not yet in processed_events is the number of like (or comment) rows of the post. |
| Interactions.LikeBalances | internal/repository/interaction_repo.go:62-75 | A like, repeated or not, keeps rows equal to the outbox sum and counts equal to its processed part, and its event is a +1 on like_count under its own routing key. |
| Interactions.UnlikeBalances | internal/repository/interaction_repo.go:78-91 | So does an unlike, with a -1, whether or not a row was there. |
| Interactions.CommentBalances | internal/repository/interaction_repo.go:93-102 | So does a new comment. |
| Interactions.DeleteCommentBalances | internal/repository/interaction_repo.go:116-130 | So does deleting a comment, the read and the DELETE seeing the same table: no event is emitted for a row that is gone. |
| Interactions.SnapshotDelete | internal/repository/interaction_repo.go:118-128 | If the transaction's read was a snapshot, the rest of it keeps the ledger iff the comment it read is still there with the same post. |
| Interactions.CreatePostBalances | internal/repository/post_repo.go:40-42 | A new post starts balanced: no row and no event can name it yet. |
| Interactions.ApplyBalances | internal/worker/worker.go:48-65 | Applying any outbox event, first time or repeated, keeps counts equal to the sum over processed ids. |
| Interactions.ApplyTwice | internal/worker/worker.go:53-59 | Applying the same event id a second time changes nothing and succeeds. |
| Interactions.NetOfPrefix | internal/worker/worker.go:43-47 | If the processed ids are the first k, the counts are those of an outbox that ended after k rows. |
| Interactions.FetchFacts | internal/repository/outbox_repo.go:31-37 | A fetch returns distinct unmarked rows by ascending id, at most the limit, and leaves behind only rows with no smaller id. |
| Interactions.PendingInCommitOrder | internal/repository/outbox_repo.go:31-37 | With the first m rows marked, the pending rows come out in commit order iff the remaining rows committed in id order. |
| Interactions.FetchInCommitOrder | internal/repository/outbox_repo.go:31-37 | With the first m rows marked, a limited fetch returns the next ones in commit order iff none of those has a larger id than any row committed after it. |
| Snapshot.FetchIsSuffix | internal/repository/outbox_repo.go:31-37 | With a prefix marked, a fetch takes as many rows as there are up to 100, and continues the prefix iff none of the rows it has room for has a larger id than a later one; ids of marked rows do not matter. |
| Snapshot.MarkExtendsPrefix | internal/repository/outbox_repo.go:39-47 | Marking the next ids in order leaves a longer prefix marked. |
| Pipeline.StepKeeps | internal/worker/worker.go:92-135 | Every step of every party, and every failure, keeps the whole invariant: balanced ledger, genuine messages only, confirmations in FIFO order with consecutive tags, a round over distinct unmarked rows, the consumer holding the unacked head of the queue. |
| Pipeline.ConservationInEveryRun | internal/repository/interaction_repo.go:62-130 | Conservation holds in every reachable state, whatever was duplicated, crashed or dead-lettered. |
| Pipeline.ConfirmationAttribution | internal/mq/mq.go:106-128 | In every reachable state the confirmation about to be read has the tag of the message published d places before the current one, d being the timeouts on this channel; it is the message's own iff d = 0. |
| Records.TablesTold | internal/repository/interaction_repo.go:60-130 | After every run the tables hold what the calls alone tell: a user likes a post iff a like of his, made while the post existed, has not been taken back; the comments are those written to existing posts and not removed, under consecutive ids with their own post, author, text and time; the posts are those created, with their author, text and time, deleted iff some call deleted them. |
| Records.CallEmits | internal/repository/interaction_repo.go:60-130 | After every run a call adds exactly one event, of its own column and direction, if it is a like that is new, an unlike that takes one back, a comment on an existing post or the removal of a standing comment, and none otherwise. |
| Records.CountsAreExact | internal/worker/worker.go:7-10 | End to end: after any run without a misattributed reply or a failed handling, a restart and any failure-free schedule run to its end leave each post's like count equal to the number of users whose like of it stands, and its comment count to the number of its standing comments. |
| Consumer.DeliversIff | internal/worker/worker.go:118-121 | The next ready message is delivered iff the channel is open, at most one reply is unread and fewer than ten messages are out. |
| Consumer.AtMostTen | internal/worker/worker.go:118 | In no run does the consumer hold more than ten messages. |
| Consumer.OnlyFailuresDie | internal/worker/worker.go:125-133 | In every run every dead letter is a message some handling of which was rolled back or committed unseen; without such failures there is none. |
| Consumer.MessagesAreRows | internal/mq/mq.go:106-113 | In every run every message published, queued, held or dead-lettered carries the id, the type as routing key, and the content of a committed event. |
| Delivery.AllKeysBound | internal/mq/mq.go:67-71 | Every event type's routing key is bound to the queue, so no event is unroutable. |
| Delivery.LandedStays | internal/worker/worker.go:117-135 | An event that is queued, dead-lettered or processed remains one of these after any step. |
| Delivery.KeptStays | internal/worker/worker.go:92-114 | While no positive reply is misattributed, every step keeps: marked events, events confirmed in the current round and events with an unread positive reply have all landed. |
| Delivery.NoLoss | internal/worker/worker.go:7-10 | In every run without a misattributed reply, every committed event is unmarked, queued, processed or dead-lettered, whatever the order of ids, and also when a retry reads its own earlier reply or a stale rejection. |
| StaleConfirmation.GoneForever | internal/mq/mq.go:116-127 | An event marked but not processed, nowhere in transit and not dead-lettered stays so in every continuation. |
| StaleConfirmation.OutOfReachForever | internal/worker/worker.go:125-133 | A marked, unapplied event with no copy in transit, dead-lettered or not, is applied in no continuation. |
| StaleConfirmation.WrongReplyLoses | internal/mq/mq.go:116-127 | From every state in which a positive reply is about to be read for an event that has not landed, four steps lose that event. |
| StaleConfirmation.OwnReplyLands | internal/mq/mq.go:104-128 | In a run without a misattributed reply, an event whose Publish reads a positive reply with no earlier timeout on the channel has landed; LossIffTimedOut has the converse. |
| StaleConfirmation.LossIsReachable | internal/mq/mq.go:116-127 | Such a state is reachable after one timeout: a concrete run that ends with event 1 marked and lost. |
| TimeoutLoss.WrongReplyReachable | internal/mq/mq.go:116-127 | From every state of the invariant with an open channel and a timeout behind it, steps without a further timeout, disconnection or restart lead to a Publish about to take a positive reply for an event that has not landed. |
| TimeoutLoss.LossIffTimedOut | internal/mq/mq.go:116-127 | In every reachable state without a misattributed reply and with an open channel, such a continuation exists iff some Publish on the channel has timed out. |
| SilentNack.SilentNackSkips | internal/worker/worker.go:125-133 | The smallest case of InboxOvertakes, with its four steps: holding the next two events, the second is applied without the first and the dead-letter queue stays as it was. |
| SilentNack.EmptyDlqIsNotEnough | internal/worker/worker.go:125-133 | A concrete run with an empty dead-letter queue, no misattributed reply and rows in commit order in which event 1 is applied and event 0 is not. |
| GivingUp.SurvivesInOrder | internal/worker/worker.go:125-133 | After giving up on an event the traffic is still in order iff what is left repeats known events or continues with the next: the inbox if the Nack is lost, otherwise the rest of the queue, the wire, the marks and the unread positive replies. |
| GivingUp.InboxOvertakes | internal/worker/worker.go:125-133 | From every state whose inbox skips an event, handling it without failure applies an event before an earlier one, with no dead letter added. |
| GivingUp.QueueOvertakes | internal/worker/worker.go:125-133 | The same for a queue that skips an event, in any state, after a restart. |
| GivingUp.WireOvertakes | internal/mq/mq.go:106-128 | The same for a publishing on the wire that would leave a gap, if the broker rejects those before it. |
| GivingUp.MarkOvertakes | internal/worker/worker.go:106-112 | If more events count as published than the queue covers, and the unmarked rows are in id order, marking them, a restart and one new event apply that event before an earlier one, which is never applied. |
| GivingUp.OrderKept | internal/worker/worker.go:125-133 | If the condition holds when the consumer gives up, no orderly continuation applies events out of order. |
| GivingUp.OvertakenIff | internal/worker/worker.go:125-133 | In every orderly run whose unmarked rows are in id order, an orderly continuation that overtakes exists after giving up iff the condition fails; where only the unread replies make it fail, for channels without timeouts. |
| Snapshot.InOrderStays | internal/worker/worker.go:92-135 | Every step that neither misattributes a reply, nor gives up an unapplied event, nor fetches out of commit order keeps: processed ids and marks are prefixes, and queue, inbox, wire and pending replies only repeat known events or continue with the next. |
| Snapshot.ProcessedIsPrefix | internal/worker/worker.go:92-135 | In every orderly run the processed ids are exactly the first k outbox rows for some k, despite republishing, redelivery, crashes and commits whose answer is lost. |
| Snapshot.SnapshotCounts | internal/worker/worker.go:92-135 | In every orderly run there is one past moment at which the rows of every post, likes and comments alike, numbered exactly what the count columns say now; so no count is negative. |
| Snapshot.IdsKeepOrder | internal/repository/outbox_repo.go:31-37 | From an ordered state, if the rows not yet marked and those that follow commit in id order, no fetch is out of order and the run stays ordered. |
| Snapshot.CommitOrderIsOrderly | internal/repository/outbox_repo.go:31-37 | A whole run in id order without misattributed replies and events given up is orderly. |
| IdOrder.DisorderOvertakes | internal/repository/outbox_repo.go:31-37 | From a pipeline at rest whose unmarked rows are not in id order, running on without commits, timeouts, misattribution or giving up applies an event before an earlier one. |
| IdOrder.DisorderIff | internal/repository/outbox_repo.go:31-37 | From a pipeline at rest, such a continuation without commits exists iff the unmarked rows did not commit in id order. |
| SwappedIds.IdOrderNeeded | internal/repository/outbox_repo.go:31-37 | A concrete run without misattribution or giving up, with two rows committed against their id order, whose counts match the rows at no point of the run. |
| Drain.ProgressDecreases | internal/worker/worker.go:92-147 | Every enabled failure-free step, in any order, strictly lowers a natural-number measure of the work left. |
| Drain.NextIsProgress | internal/worker/worker.go:77-135 | On an open channel a failure-free step is enabled unless everything is published and handled and the queue is empty (quiet) or blocked by unread replies (stalled). |
| Drain.ScheduleDrains | internal/worker/worker.go:92-147 | From any open channel any failure-free schedule is at most as long as the measure and, once nothing is enabled, has made the pipeline quiet or stalled; quiet if at most one Publish has timed out. |
| Drain.DrainExists | internal/worker/worker.go:92-147 | From every such state such a schedule exists. |
| Drain.LeftoverReplies | internal/mq/mq.go:90-99 | Once everything is published there is one unread reply for each timeout, so a non-empty queue is stalled iff two or more have happened. |
| Drain.StallStays | internal/mq/mq.go:90-99 | A stalled pipeline delivers and applies nothing until a client writes, the connection drops or the worker restarts. |
| Drain.QuietShortfall | internal/worker/worker.go:92-147 | In a quiet state where nothing was lost the unapplied events are exactly the dead-lettered unapplied ones, and each count plus their deltas is its rows. |
| Drain.EventuallyExact | internal/worker/worker.go:7-10 | From any state reached without a misattributed reply, a restart and any failure-free schedule run to its end leave every count short of its rows by exactly the deltas of the dead-lettered unapplied events: equal iff these cancel, and always with an empty dead-letter queue. |
| Worker.Store.EnqueueCountEvent | internal/repository/interaction_repo.go:49-58 | Appends the event row for like_count or comment_count, and refuses any other column and changes nothing. |
| Worker.Store.Like | internal/repository/interaction_repo.go:62-75 | Afterwards the like row is there; the outbox has grown by exactly its +1 event iff the row is new, and no other table has changed. |
| Worker.Store.Unlike | internal/repository/interaction_repo.go:78-91 | Afterwards the like row is gone; the outbox has grown by exactly its -1 event iff there was one, and no other table has changed. |
| Worker.Store.CreateComment | internal/repository/interaction_repo.go:93-102 | Adds a comment under a new id, which is returned, with this post, author, text and time, and its +1 event. |
| Worker.Store.DeleteComment | internal/repository/interaction_repo.go:116-130 | Removes exactly the comment with that id and adds the -1 event of its post; a missing one is an error that changes nothing. |
| Worker.Store.Apply | internal/worker/worker.go:48-65 | Under each answer the database can give (committed, rolled back, or committed with the answer lost): the id becomes processed and, if it was not, the named count of the named post moves by delta; a column outside the whitelist or a rollback changes nothing. |
| Worker.Store.MarkProcessedIds | internal/repository/outbox_repo.go:39-47 | Marks exactly the given ids. |
| Worker.Process.Publish | internal/mq/mq.go:106-128 | Sends, lets anyone else act, then takes the first confirmation, a closed channel or the timeout, as the step system does. |
| Worker.Process.PublishAll | internal/worker/worker.go:97-105 | The publish loop stops at the first failure and returns exactly the events confirmed before it. |
| Worker.Process.RelayOnce | internal/worker/worker.go:92-114 | A whole round, with any interference during each wait, ends in the state of the specified round. |
| Worker.Process.ConsumeOne | internal/worker/worker.go:125-133 | One delivery is taken from the inbox and applied; then it is acked, or on failure moved to the dead letters, if the channel is still open. |
| Worker.RoundIsRun | internal/worker/worker.go:92-114 | Every round is a run of the step system and so keeps its invariant, whatever happens while it waits. |
| Rounds.OthersRun | internal/mq/mq.go:116-127 | While a Publish waits the other parties act in the given order, as in any run. |
| Rounds.PublishOutcome | internal/mq/mq.go:106-128 | One Publish sends its message at most once and succeeds iff it was sent and the first reply there in time is positive. |
| Rounds.RoundMarks | internal/worker/worker.go:92-114 | Whatever happens meanwhile, a round sends a prefix of the up to hundred events fetched, in order, and marks exactly those confirmed, all of them or all but the last sent, or none if marking fails. |
| Rounds.CleanRound | internal/worker/worker.go:92-114 | Under a broker that accepts in time a round moves all the events it fetched to the queue, in order, and marks every one. |
| Bloom.SetBit | internal/bloom/bloom.go:81-82 | Setting a bit of a byte makes that bit readable and changes no other. |
| Bloom.Filter.Set | internal/bloom/bloom.go:81 | Setting position q sets exactly q among all m positions, with the byte index in range. |
| Bloom.Filter.Get | internal/bloom/bloom.go:82 | Reads exactly that position. |
| Bloom.Filter.Add | internal/bloom/bloom.go:46-51 | Keeps the array equal to the union of the positions of all keys added. |
| Bloom.Filter.Test | internal/bloom/bloom.go:54-62 | Answers yes iff all positions of the key lie in that union. |
| Bloom.NoFalseNegative | internal/bloom/bloom.go:1-8 | Every added key passes. |
| Bloom.Coverage | internal/bloom/bloom.go:54-62 | A key passes iff each of its positions is a position of some added key. |
| Bloom.StaysForever | internal/bloom/bloom.go:46-62 | Further additions never turn a yes into a no. |
| Bloom.PlainDoubleHashing | internal/bloom/bloom.go:46-79 | While k times m fits in 64 bits the positions of a key are (h1 + i * h2) mod m of its two FNV-1a hashes, the second over the key and the salt 0x9e and one if zero: reducing first and wrapping change nothing. |
| Bloom.WrapMatters | internal/bloom/bloom.go:46-62 | Without that bound wrapping does change positions: an instance with m one below 2^64. |
| Bloom.KnownHashes | internal/bloom/bloom.go:66-74 | The hash takes its known 64-bit FNV-1a values on the empty string, "a" and "ab". |
| Bloom.GuardIsNotEnough | internal/bloom/bloom.go:66-79 | For 0 < m < 2^64 and two or more probes, all positions of a key coincide iff m divides the second hash (or is one, for a hash the guard replaced). |
| Bloom.GuardFails | internal/bloom/bloom.go:66-79 | The empty key with three bits and two probes is such a key. |
| PostCache.IdBytesDistinct | internal/service/post_service.go:21-25 | Different int64 ids have different eight-byte filter keys. |
| PostCache.IdBytesValue | internal/service/post_service.go:21-25 | The key is the eight base-256 digits of the id modulo 2^64, most significant first. |
| PostCache.RestartCoherent | cmd/server/main.go:56-70 | Start-up loads the new filter with every live post, so the surviving cache and the filter stay coherent. |
| PostCache.HistoryCoherent | internal/service/post_service.go:111-183 | After any history of calls with any failing reads, Sets and Dels, every cached post is the live row or predates a write whose Del failed, every empty entry predates its post, and no live post is ruled out. |
| PostCache.Transparent | internal/service/post_service.go:119-183 | With no failed Del for the row, Get answers as a direct table read for every viewer, iff it is not served an empty entry for a live post. |
| PostCache.AnswerShowsRow | internal/service/post_view.go:33-49 | With no failed Del for the row, an answer shows the live row field by field (both counts, text, time, author id), the nickname and avatar of its author's row, and the viewer's own like; a refusal is not-found. |
| PostCache.CountsAreSeen | internal/worker/worker.go:60-71 | After a count event was applied to a live post and its entry deleted, every Get shows the like count and the comment count moved by that much. |
| PostCache.LikeIsSeen | internal/service/interaction_service.go:67-91 | After a like or unlike that user's answer has the new flag and every other answer is as before, whether or not the Del worked. |
| PostCache.TableUnread | internal/service/post_service.go:111-147 | An answer from a live entry, or about an id one of whose filter positions no added key covers, is the same whatever the posts table holds; the latter is not-found. |
| PostCache.MissFillsCache | internal/service/post_service.go:149-167 | A Get that did not hit leaves, if its Set works, the live row for ten minutes or its absence for thirty seconds, and no other entry changed. |
| PostCache.QuietHeals | internal/service/post_service.go:27-33 | After ten minutes without a call every answer is that of a direct table read, whatever failed before. |
| PostCache.EmptyEntryIsShort | internal/service/post_service.go:30-33 | That exception ends less than thirty seconds after the post was created. |
| PostCache.HealsInTenMinutes | internal/service/post_service.go:27-33 | Any other wrong answer occurs less than ten minutes after a write whose Del failed. |
| PostCache.DeletedIsGone | internal/service/post_service.go:247-265 | Only the owner of a live post deletes it; with a working Del every later read says not found at once; a refused call changes nothing and says which of the two it was. |
| PostCache.CreatedIsServed | internal/service/post_service.go:89-102 | A new post is served in full to everyone at once, unless its id was looked up too early. |
| PostCache.CommentsDropEntry | internal/service/interaction_service.go:94-136 | Commenting on a live post and deleting a comment drop exactly the entry of its post. |
| PostCache.RestartLoads | cmd/server/main.go:56-70 | A start gives the filter the keys of exactly the live posts, and touches nothing else. |
| PostCache.MissingAuthorAnswersTwice | internal/service/post_service.go:202-229 | In a state no history reaches, a live post without its author row, the first read answers a placeholder, and the second not found iff the absence was cached by the first and can be read by the second. |
| PostCache.LookupBeforeCreation | internal/service/post_service.go:84-94 | A concrete history in which a live post is answered not found. |
| PostService.Service.Get | internal/service/post_service.go:119-183 | Cache, bloom gate, table and fill in order: the answer and the new cache are those of the specification, under any failing cache command. |
| PostService.Service.GetUserCached | internal/service/post_service.go:202-229 | A live entry answers, its absence being an error; otherwise the row answers and is cached for ten minutes, its absence for thirty seconds. |
| PostService.Service.Create | internal/service/post_service.go:83-94 | Inserts the row with zero counts and adds its key to the filter, leaving every cache entry in place. |
| PostService.Service.Delete | internal/service/post_service.go:247-265 | Not found, forbidden for all but the author, or soft deletion of exactly this row and of its entry. |
| PostService.Service.Restart | cmd/server/main.go:56-70 | The start-up loop leaves a filter holding the keys of exactly the live posts, each by its own id. |
| PostService.Service.Like | internal/service/interaction_service.go:69-78 | Only a live post can be liked; then the like row is there and, if the Del works, the cache entry is gone. |
| PostService.Service.Unlike | internal/service/interaction_service.go:81-91 | The same for removing a like. |
| PostService.Service.Comment | internal/service/interaction_service.go:94-118 | Only a live post can be commented on; its entry is then deleted. |
| PostService.Service.Uncomment | internal/service/interaction_service.go:132-136 | Deleting a comment deletes the entry of its post, live or not. |
| PostService.Service.ApplyCount | internal/worker/worker.go:60-71 | Moves the two counts of this row, soft-deleted or not, and of no other, and deletes its entry. |
| CacheRace.StalenessCharacterised | internal/service/post_service.go:151-167 | In every interleaving a cached entry is the row as of some number of commits, not one later write is resolved (its Del failed, has not run, or ran before the Set), and it lives ten minutes or thirty seconds from its Set. |
| CacheRace.StaleOnlyBy | internal/service/post_service.go:151-167 | A live positive entry that differs from the row missed such a write, and dies within ten minutes of its Set. |
| CacheRace.EmptyOnlyBy | internal/service/post_service.go:139-147 | A live empty entry for an existing post missed a commit, and dies within thirty seconds of its Set. |
| CacheRace.StaleFromAnyFill | internal/service/post_service.go:151-167 | From every state with a positive fill in flight, any commit that changes the row makes the entry stale in each of the three ways. |
| CacheRace.HiddenFromRace | internal/service/post_service.go:83-94 | An empty entry comes to hide an existing post when a lookup from before its creation is set after it, or when the filter, not yet told of it, rules it out; once told it never does. |
| CacheRace.EntriesDie | internal/service/post_service.go:27-33 | In every interleaving no entry outlives ten minutes, nor an empty one thirty seconds. |
| CacheRace.ReadThenSet | internal/service/post_service.go:151-167 | An uninterrupted fill serves the row as it is, for ten minutes or thirty seconds; one whose Set fails leaves the cache as it was. |
| CacheRace.CommitThenDel | internal/service/post_service.go:267-275 | A commit is what a direct read then gives, a working Del empties the key whatever was in it, and the filter knows the id only once the post exists. |
| CacheRace.AllCausesHappen | internal/service/post_service.go:151-167 | Each of the three causes occurs in a concrete interleaving. |
| Cursor.ParsePrintedInt | internal/service/feed_service.go:41-42 | Parsing a printed integer returns it iff it fits int64, the minimum value included. |
| Cursor.Base64RoundTrip | internal/service/feed_service.go:28-33 | Decoding base64url undoes encoding for every byte string. |
| Cursor.LetterOfAlphabet | internal/service/feed_service.go:28 | The sixty-four letters are those of the URL-safe alphabet of RFC 4648, section 5. |
| Cursor.EncodedThree | internal/service/feed_service.go:28 | Three bytes, read as one 24-bit number, become the four letters of its six-bit parts, most significant first. |
| Cursor.EncodedTwo | internal/service/feed_service.go:28 | Two bytes at the end become three letters, filled up with zero bits, and one padding character. |
| Cursor.EncodedOne | internal/service/feed_service.go:28 | One byte at the end becomes two letters and two padding characters. |
| Cursor.EncodedGroups | internal/service/feed_service.go:28 | Groups of three bytes are encoded one after the other. |
| Cursor.BreaksIgnored | internal/service/feed_service.go:33 | A carriage return or line feed anywhere in a cursor changes nothing. |
| Cursor.Base64Accepts | internal/service/feed_service.go:33-36 | Decoding takes exactly groups of four letters of which the last may end in one or two padding characters. |
| Cursor.ParseShape | internal/service/feed_service.go:41-45 | A number is at least one digit after at most one sign and fits int64; up to eighteen such characters always do. |
| Cursor.CursorRoundTrip | internal/service/feed_service.go:26-47 | For every int64 id, decoding an encoded cursor returns the id and the time reduced to int64 nanoseconds (modulo 2^64); it returns the very pair iff the time fits. |
| Cursor.CursorText | internal/service/feed_service.go:23-28 | The text in a cursor is the nanoseconds in decimal, an underscore and the id in decimal, in that order. |
| Cursor.KnownCursor | internal/service/feed_service.go:26-29 | The cursor of -12 ns and id -3 is "LTEyXy0z". |
| Cursor.CursorAccepts | internal/service/feed_service.go:32-47 | A string decodes to a position iff it is base64url of a text with an underscore that has the one number before it and the other behind. |
| Cursor.CursorInjective | internal/service/feed_service.go:26-29 | Different positions have different cursors. |
| Cursor.DecodedIsInt64 | internal/service/feed_service.go:32-47 | Any string decodes to an int64 position or is refused with code 40005. |
| Keyset.DescSorts | internal/repository/post_repo.go:73 | The query order lists every matching key once, newest first, ties by larger id. |
| Keyset.DescUnique | internal/repository/post_repo.go:73 | No other sequence of those keys is in that order. |
| Keyset.PageFacts | internal/service/feed_service.go:98-103 | One page is a descending run of rows past the cursor, all of them when there is no next page, otherwise exactly those down to its last item. |
| Keyset.WalkDescends | internal/service/feed_service.go:77-80 | While rows come and go between requests, the pages together are strictly descending: nothing is shown twice. |
| Keyset.WalkComplete | internal/service/feed_service.go:77-80 | A walk that reaches the end shows every row that was present at each request it made. |
| Keyset.WalkSound | internal/service/feed_service.go:81-104 | Every row shown was present at one of the requests made. |
| Keyset.FixedTableWalk | internal/repository/post_repo.go:65-75 | Over a table that does not change, the pages are the sorted list past the cursor, whatever limits are asked for. |
| Keyset.PageShrinks | internal/service/feed_service.go:98-103 | Each page with a next one leaves exactly a page fewer rows. |
| Keyset.PagesNeeded | internal/service/feed_service.go:81-104 | n requests reach the end iff the rows are at most n times the clamped limit; so every walk ends. |
| Keyset.NextPageContinues | internal/service/feed_service.go:189-193 | The cursor string sent with a page, sent back with any limit and a table changed since, continues after exactly its last row. |
| Keyset.ListAnswers | internal/service/feed_service.go:81-104 | The list endpoint in full: without a cursor it shows the newest rows, with one the newest after its position, as many as asked for (20 for none or less, at most 50), with a next cursor iff there are more; a string that is no cursor is refused with code 40005. |
| Keyset.CollectsAll | internal/service/feed_service.go:74-80 | A client that starts without a cursor and only sends back the strings it gets collects every row of an unchanging table exactly once, newest first. |
| Keyset.FilterDesc | internal/repository/post_repo.go:80-92 | Sorting fewer keys is filtering the sorted list. |
| Feed.FollowingFeedIsFilteredFeed | internal/repository/post_repo.go:77-92 | Walking the following feed gives the global feed with other authors' posts left out. |
| Feed.OwnIsFollowingOne | internal/repository/post_repo.go:95-104 | A profile's list is the following feed of one author. |
| Feed.OneKeyPerRow | internal/repository/follow_repo.go:87-105 | In the global, following and followers lists a key stands for exactly one matching row, the other user's id being the follow lists' tiebreak. |
| Feed.OneKeyPerAuthoredRow | internal/repository/interaction_repo.go:134-143 | The same for posts by chosen authors and for the comments of a post. |
| Feed.EndpointMatchesPage | internal/service/feed_service.go:98-104 | For any list, the page sent for the rows of a query has the items, flag and cursor that the paging theorems speak of. |
| Feed.FollowingPageIsList | internal/service/feed_service.go:111-146 | The following feed answers as the plain list, errors included, iff at most 5000 are followed and it is not the case of nobody followed and a bad cursor. |
| Feed.FollowingAnswers | internal/service/feed_service.go:111-146 | The following feed in full: refused with code 40040 beyond 5000 authors, empty without any, and otherwise the newest of their live posts after the cursor's position. |
| Feed.LikedPostIDs | internal/repository/interaction_repo.go:153-169 | The batched lookup marks exactly the asked posts the user liked; nobody logged in or no ids asks nothing. |
| Feed.Distinct | internal/service/feed_service.go:157-165 | The collected ids are the users of the page, each once. |
| Feed.FillLiked | internal/service/feed_service.go:234-248 | Writes each view's own liked flag into the slice; a failed query leaves it alone. |
| Feed.Assemble | internal/service/post_service.go:301-332 | Each view shows its own post row field by field, with its author row (or the placeholder) and the viewer's own like, in the order of the posts: what looking each post up by itself gives. |
| Feed.BuildPage | internal/service/feed_service.go:151-195 | The same for a page of at most limit posts, with the flag that there are more and the cursor of the last one shown. |
| Feed.BuildOwnPostsPage | internal/service/profile_service.go:91-121 | So does the profile page, which asks for no author, when the profile's user row is current. |
| Feed.BuildCommentPage | internal/service/interaction_service.go:160-193 | The same for a page of comments: each view shows its own comment and that comment's author. |
| Feed.BuildSocialPage | internal/service/social_service.go:127-174 | The same for a page of follows: each view shows the other user of its own row and the time of the follow; the cursor carries the other user's id and a missing user shows empty fields. |
| Feed.HotList.LoadHot | internal/service/feed_service.go:250-273 | The hot list is the live posts among the ranked ids, in rank order, with the viewer's likes. |
| Feed.HotList.List | internal/service/feed_service.go:200-231 | Each viewer sees his own likes, hit or miss, while what is stored is the public list whoever filled it. |
| RateLimit.WindowCounts | internal/middleware/ratelimit.go:65-69 | The sorted set's size is the number of requests recorded in the closed window ending now, rejected ones included. |
| RateLimit.TransactionLeaves | internal/middleware/ratelimit.go:65-69 | A transaction leaves nothing of an expired key, else the members whose score is within the closed window, with their scores, and the new one; the key then lives for the window and a minute. |
| RateLimit.ExpiryInvisible | internal/middleware/ratelimit.go:69 | The key's expiry never changes what a transaction leaves behind. |
| RateLimit.SlidingAdmission | internal/middleware/ratelimit.go:65-79 | An answered request passes iff at most limit requests, itself included, were recorded in its window. |
| RateLimit.SlidingBound | internal/middleware/ratelimit.go:50-81 | No interval of window length admits more than limit answered requests. |
| RateLimit.RejectedRequestsCount | internal/middleware/ratelimit.go:50-78 | A concrete log in which a request is rejected only because rejected ones are recorded. |
| RateLimit.RecordingRejectionsMatters | internal/middleware/ratelimit.go:50-78 | The code and the limiter its comment describes, which records only what it allows, give every request of a log the same verdict iff each one the code rejects has at least limit allowed ones in its window. |
| RateLimit.FixedAdmission | internal/middleware/ratelimit.go:33-46 | An answered request passes iff it is among the first limit hits of its clock minute. |
| RateLimit.MinuteBound | internal/middleware/ratelimit.go:24-48 | At most limit answered requests pass in a clock minute, the expiry never resetting a counter inside it. |
| RateLimit.SpanBound | internal/middleware/ratelimit.go:24-48 | At most twice limit pass in any sixty seconds. |
| Limiter.Redis.RateLimitUser | internal/middleware/ratelimit.go:53-81 | The middleware performs exactly that transaction on this user's key alone, which then lives for the window and a minute, and lets through requests without user, Redis or answer. |
| Limiter.Redis.RateLimitIP | internal/middleware/ratelimit.go:24-48 | The middleware counts this hit in this address's minute alone, sets the expiry of ninety seconds on the first, and lets through when Redis does not answer. |
| HotBoard.BucketsExact | internal/cache/cache.go:91-97 | Each bucket holds exactly the posts and sums of every increment of its minute and dies eleven minutes after the last one whose EXPIRE succeeded, never if none did. |
| HotBoard.CountedWindow | internal/cache/cache.go:95-96 | Every increment of the last ten minutes counts, of the last eleven if its EXPIRE succeeded; one twelve or more minutes old counts iff no EXPIRE of its minute succeeded. |
| HotBoard.BoardScore | internal/cache/cache.go:105-120 | For any window a post's score is the heat of exactly the counted increments of the minutes read. |
| HotBoard.FailedSplit | internal/cache/cache.go:108-112 | Buckets that cannot be read lose their own heat and nobody else's: the scores without them and the scores of them alone add up to the whole. |
| HotBoard.OnBoard | internal/cache/cache.go:105-120 | For any window a post is on the board iff some increment of it in the minutes read counts. |
| HotBoard.SixtyIsTwelve | internal/service/feed_service.go:255 | Reading more than twelve buckets adds exactly the heat of older minutes that never expire, so the scores are equal iff the post has none there. |
| HotBoard.SixtyIsTwelveIff | internal/service/feed_service.go:255 | The sixty-bucket board is the twelve-bucket board iff every minute twelve to fifty-nine ago that was incremented had an EXPIRE that succeeded. |
| HotBoard.BoardIsCountedHeat | internal/service/feed_service.go:255 | With twelve or more buckets a post's score is the heat of all its counted increments iff none older than the buckets read counts, and one that does lies in a minute that never expires. |
| HotBoard.Cache.ZIncrBy | internal/cache/cache.go:91-97 | Adds to the current minute's bucket and renews its expiry; a failed increment changes nothing, a failed EXPIRE leaves the expiry as it was. |
| HotBoard.Cache.AddBucket | internal/cache/cache.go:113-119 | Adds a bucket's members to the totals, whatever order they come in. |
| HotBoard.Cache.Ranked | internal/cache/cache.go:122-132 | The result is the unique order by score then id, both descending, whatever order the map yields. |
| HotBoard.Cache.HotTopN | internal/cache/cache.go:102-137 | The top N of the summed readable buckets; a bucket that cannot be read is left out and nothing else. |
| HotFeed.LoadHot | internal/service/feed_service.go:250-273 | The views shown are the live posts of the top of the sixty-bucket ranking, with the viewer's likes, whatever buckets could be read. |
| HotFeed.ListHot | internal/service/feed_service.go:200-231 | The same behind the one-minute result cache, which stays free of anybody's likes. |
| HotFeed.HotListShows | internal/service/feed_service.go:250-273 | With all buckets readable a post is shown iff it is live, some counted increment of it lies in the minutes read, and fewer than limit posts rank before it. |
| HotFeed.HotListOrder | internal/cache/cache.go:126-132 | Of two posts shown the first has more counted heat, or as much and the larger id. |
| Follow.CountersAreDegrees | internal/repository/follow_repo.go:32-69 | In every run each user's counters are the out- and in-degree of the follow relation, which has no loops and only registered users. |
| Follow.TotalsAgree | internal/repository/follow_repo.go:32-69 | In every run both counter totals are the number of follow rows. |
| Follow.FollowsIffAsked | internal/service/social_service.go:51-88 | In every run someone follows a user iff he asked to when both were registered and has not asked to stop since; nobody follows himself. |
| Follow.CountersAreAsked | internal/repository/follow_repo.go:32-69 | So each counter is the number of users so followed, or so following. |
| Follow.NextReadIsCurrent | internal/service/social_service.go:25-33 | After a follow or unfollow whose Del worked neither user has an old entry, and the next reads cache the counters as they are now. |
| Follow.CachedCounters | internal/service/social_service.go:26-33 | In every run a cached user entry has the current counters unless a Del after a change of them failed. |
| Follow.SocialRepo.FollowUser | internal/repository/follow_repo.go:32-50 | Afterwards the row is there; iff it is new the follower's following count and the followee's follower count have each risen by one, and nobody else's has moved. |
| Follow.SocialRepo.UnfollowUser | internal/repository/follow_repo.go:52-69 | Afterwards the row is gone; iff there was one the two counts have each fallen by one, and nobody else's has moved. |
| Follow.SocialRepo.Follow | internal/service/social_service.go:52-88 | Refuses oneself (40030) and unknown users, in that order; otherwise the row is there and, if the Del works, both users' entries are gone. |
| Follow.SocialRepo.Unfollow | internal/service/social_service.go:64-88 | The same for unfollowing. |
| Tokens.AcceptedAtMostOnce | internal/service/auth_service.go:140-160 | In every run with a cache a token accepted twice is one whose own removal from the whitelist failed. |
| Tokens.NeverAgain | internal/service/auth_service.go:140-166 | A used or logged-out token is never acceptable again unless its removal failed; an expired one never is. |
| Tokens.LoginThenRefresh | internal/service/auth_service.go:120-160 | With a cache, in every run, the token of a login can be refreshed at any later time iff registering it succeeded, its exp has not come, the list can be read, and no logout or accepted refresh has taken it off; past its exp it is refused as unauthorized, otherwise with 40102. |
| Tokens.RefreshThenRefresh | internal/service/auth_service.go:143-160 | The same for the token a refresh hands out, which is of the same user and chain. |
| Tokens.OnePerChain | internal/service/auth_service.go:140-160 | Two acceptable tokens of one login chain exist only if some removal in that chain failed. |
| Tokens.DegradedModeReplays | internal/service/auth_service.go:78-90 | Without a cache every token issued is acceptable exactly until it expires, used and logged out or not. |
| Tokens.RotationHandsOver | internal/service/auth_service.go:153-159 | With a cache and a working Del, after a refresh the old token is refused and the new one, for the same user, is accepted iff it was registered and is not born expired. |
| Tokens.OverlapForks | internal/service/auth_service.go:143-160 | Two overlapping refreshes of one token leave its chain with two acceptable tokens, although no removal failed in either. |
| Tokens.RevocationMatters | internal/service/auth_service.go:69-76 | A refresh or logout leaves the token acceptable iff there is no cache or its removal failed. |
| Tokens.AuthService.LoginAs | internal/service/auth_service.go:132-138 | Issues a fresh token that expires with the last whole second of ttl and lists it for ttl, keeping the login even when registering fails. |
| Tokens.AuthService.RefreshWith | internal/service/auth_service.go:143-160 | Refuses an expired or unknown token and, with another code, one not listed under its user; otherwise issues a token of the same user and chain, takes the old one off the list and lists the new one, under any failing cache command. |
| Tokens.AuthService.LogoutWith | internal/service/auth_service.go:163-166 | Takes exactly this token off the list and succeeds whatever the cache says. |

## Left out

- JSON encoding of payloads and the parsing of message ids; a malformed message would be dead-lettered.
- What a broker accepts from a connection the client already knows to be closed; several relays, several
  consumers, the dead-letter logger, and errors of the pending-rows query.
- The check that a comment is deleted by its author: any existing comment may be deleted in `Pipeline`.
- MySQL, Redis, RabbitMQ and their client libraries: atomic transactions, maps with expiry, and a queue.
- Database errors on read paths, and a failed liked lookup on the detail page (which shows liked = false).
- Singleflight sharing of one fill between concurrent readers; in `CacheRace` each fill stands for a shared one.
- Profiles read user rows, not user entries; the views modelled use only a user's name and avatar.
- Post fields other than text (images, tags) travel with `content`.
- Per-row database errors while assembling the hot list; the board without any cache, which is empty.
- Sorted-set members of the sliding window are assumed distinct, its clock not to run backwards, and its
  seconds are integer milliseconds rather than floating point.
- Bucket names in local time: minutes are taken from one clock without zone or daylight-saving changes.
- Bloom sizing (floating point) and false-positive rates; several servers each with a filter of their own.
- Full-text matching, input-length checks, registration, passwords, JWT signing and hashing.
- Configuration, HTTP routing, uploads, the web front end and deployment files.
- Isolation below serial transactions, but for what `SnapshotDelete` says about one of them.
- Worker.Store.Apply: deleting the cache entry after the transaction is modelled in `PostCache` and
  `CacheRace`, not here.
- Worker.Process.Others: the other parties take their steps as the step system defines them, since they are not
  the worker's own code.
- PostService.Service.Like: the heat it adds to the hot board is modelled in `HotBoard` only.
- PostService.Service.Comment: its row and count are modelled in `Interactions`, its heat in `HotBoard`.
- Feed.BuildSocialPage: a user's bio is not in the views.
- Feed.HotList.LoadHot: its ranking is any sequence of ids here; `HotFeed` joins it to the board.
- GivingUp.OvertakenIff: on a channel with timeouts an unread positive reply may lie behind one that no Publish
  can read as its own any more; there the clause on replies is sufficient but stricter than needed.
