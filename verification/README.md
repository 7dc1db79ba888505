# A model of the video backend's stored state

The backend keeps its fast state in Redis, its tables in MySQL, and ties the two together with events that are
delivered at least once. This project models the parts where that can go wrong and proves what holds over whole
runs: which counts are exact, which only converge, which pages are complete, and where a promise fails and by how
much.

Each component has the same three layers: pure step functions on a value of the stored state; a machine that runs
those steps in any order, with lemmas about every run; and a class in the form of the Go code, whose methods with
their loops and field updates are proved equal to the steps. Lua scripts and SQL transactions are single steps;
everything the Go code does in separate calls is separate steps.

| file | component |
|---|---|
| Ranking, Text, SortedSet | strict orders and cut lists; decimal text, byte order and separators; Redis sorted sets |
| HotRank | minute buckets, the score-once mark, the merged board and its cache |
| FollowIndex, FollowPage, FeedRepo, FollowFeed | inboxes and outboxes, one page from the index, the repository, and the feed with its table fallback |
| FollowMiss, FollowLoss, FollowWalk, LostVideos | exactly when a page of the index, a page of the feed and a walk skip a video for good; two families of runs that lose one |
| Notify, NotifyCleanup, ActorList, Backfill | details, threads and bindings; when they may be cleaned up; the text column of recent actors; who is told, live and afterwards |
| Paging | the two keyset cursors |
| Comments, CommentDrift | denormalised comment counters, and by how much they fall behind |
| VideoStatus, DetailCache, CacheRace | status transitions; the logical-expiry cache; its loads against requests and waiting readers |
| Consumer, Converge, Replay | message dispatch; counters recomputed on events; a table replayed from events |
| Reconcile | the follow relation in three places, and the offline consistency tool |

Times are whole milliseconds on one clock, and a Redis key lives while the clock is before its expiry. IDs are below
2^64. What a Redis or SQL server returns in no particular order (scan pages, rows) is a parameter or is chosen
arbitrarily.

## What the claims need

Some claims of the code hold only under conditions it does not enforce. They are preconditions here, or guards of a
machine, and where a condition fails the exact extent of the damage is stated.

- Hot ranking: the clock does not go backwards, and Redis merges a window before 70 minutes have passed since its
  oldest minute began, which for a 70-minute window means within the minute (MergeIsExactExactlyInTime).
- Follow index: one score per member (RescoringLosesAnEntry) and no expiry of a whole key. Follow feed walk: index
  scores are the rows' create times, and create times and IDs do not change.
- FeedServesNewest, WalkShowsEverything and PageIsSortedUnion bound what the filters drop, per source, because the
  fetch limit is spent before filtering (FilteredEntriesLoseAVideo). Without that bound
  FeedMissesNothingExactlyWhenSuffices and WalkShowsEverythingExactlyWhenSufficing say exactly when nothing is lost.
- Notifications: Cleanup does not delete a thread between another Notify's second and third statement
  (CleanupIsSafeExactlyOutsideNotify).
- SerialCountersAreExact: one comment request at a time. CountersNeverExceedRows and CountersLagByVainDeletions have
  no such condition.
- CountsConverge: a counter's values are stored in the order in which they were read, and a change is rolled back only
  if nobody has read its counters and no other request has changed the same membership since. One handler at a time
  per counter gives the first. TableCatchesUp: each key's events are consumed in publication order. The producer sets
  message keys but no message group (back/internal/platform/mq/producer/producer.go:68), so nothing in the repository
  guarantees any of these.
- CacheShowsTheRow: requests one at a time and no failing cache. TruthfulExactlyWhenEveryWriteStands lets loads read
  and write apart, with each request's row and cache operations one step; ServedRecordsAreRecentAndReal has neither
  condition.

## Where the code and its own words differ

The model follows the code.

- docs/reports/2026-11-03-kafka换rocketmq.md:90 says that a redelivery counts heat twice. The mark is written in the
  same script as the score, so it does not (CountedOnce).
- back/internal/modules/feed/repo/repo.go:367 says that within one millisecond nothing is repeated or missed. Nothing
  is repeated. But Redis breaks ties by member bytes, and every page of a walk through one millisecond is cut from the
  same first `limit` + 20 entries, so the walk shows everything if and only if each video that Redis lists behind those
  is older than all of them (TiedWalkShowsEverythingExactlyWhenTailIsOlder, TiesAcrossWidthsLoseAVideo). For one page,
  behind any cursor, the condition is PageMissesNothingExactlyWhenFewOlder.
- back/internal/modules/comment/repo/repo.go:51 says that no reply is orphaned. Create accepts a reply as a parent, and
  deleting a comment removes only its direct replies (DeletionIsSafeExactlyWhenFlat, ReplyKeepsFlatExactlyUnderTop).
- back/internal/modules/follow/repo/repo.go:47 has the script keep both directions; it looks at one of them only
  (SetFollowRepairsExactlyWhenFirstDiffers).
- Publishing a video already marked failed changes nothing and reports success (PublishSucceedsEmptyHanded).
- A reader that joins a background refresh gets an error, because that load delivers no value
  (WaiterGetsAValueExactlyWhen, ReaderJoinsARefreshOnlyAfterLosingTheRecord).
- back/internal/modules/video/logic.go:456 drops the record before the row so that none is left of deleted content. One
  is left if and only if, after the drop, a load that had read the public row landed, or a request warmed the record,
  and no load that found nothing has landed since (RecordOutlivesItsRowExactlyWhenSetForGood,
  LoadInsideADeletionOutlivesTheRow).
- The list queries that bound create time and ID separately skip rows when IDs and times disagree in order
  (CompleteExactlyWhenAgreeing).
- The dry run of the follow migration recounts sets that its real run would first have filled up
  (DryRunMissesLostSets), and counts a missing pair as often as SCAN returns its key
  (DryRunPredictsExactlyWithoutRepeats).

## Model

| member | source | states |
|---|---|---|
| HotRank.BoardCountsPeople | back/internal/modules/feed/repo/repo.go:142-152 | After any run of score events, deletions and page reads, a newly built board over any window named in time, and so every window of up to 70 minutes merged within its minute, gives every video 2 × the distinct likers + 3 × the distinct favouriters + the distinct commenters whose contributions still count, and lists exactly the videos with at least one. |
| HotRank.CountedOnce | back/internal/modules/feed/repo/repo.go:57-82 | In every run no window of up to 70 minutes, at any later moment, holds two accepted contributions of one kind by one person to one video. |
| HotRank.MergeIsSum | back/internal/modules/feed/repo/repo.go:26-30 | If 70 minutes have not passed since the oldest minute of the window began, no bucket it names has expired when Redis merges it, and the merge is the exact sum over the window. |
| HotRank.MergeIsExactExactlyInTime | back/internal/modules/feed/repo/repo.go:26-30 | For every minute, every window of at least a minute and every moment: the merge that Redis executes then is the exact sum over the window after every run, if and only if 70 minutes have not passed since the oldest minute began. |
| HotRank.LateMergeLosesAMinute | back/internal/modules/feed/repo/repo.go:92-109 | When they have passed, whatever the window, a contribution made the moment its oldest minute began is still to be counted and missing from the merge. |
| HotRank.MarkLifetime | back/internal/modules/feed/logic.go:319-343 | However late an event is handled, its mark lives, to the whole second, until at least 70 minutes after the event, and is never given a lifetime of zero. |
| HotRank.TurnedAwayOnlyForARepeat | back/internal/modules/feed/logic.go:319-343 | An event in time is refused only if the same person's same kind of event for that video was accepted less than 70 minutes before. |
| HotRank.CountsForItsOwnMinute | back/internal/modules/feed/logic.go:319-343 | An accepted event with a time of its own that is not to come is less than 70 minutes old, and adds 2, 3 or 1 to its video in the minute of that time, whenever it is handled, and to nothing else. |
| HotRank.CountsForThePresent | back/internal/modules/feed/logic.go:319-332 | One without a time, or from the future, counts as one of the moment in which it is handled. |
| HotRank.LateEventsAreDropped | back/internal/modules/feed/logic.go:329-332 | One handled 70 minutes after its time or later changes nothing. |
| HotRank.RedeliveryIsRefused | back/internal/modules/feed/logic.go:319-343 | Delivered again after any run that follows, an accepted event changes nothing if its script runs less than 70 minutes after its time or its handler starts later than that. |
| HotRank.SumCountsPeople | back/internal/modules/feed/logic.go:28-31 | If a window holds each contribution once, its total weight is the weighted number of people. |
| HotRank.DeletedVideoLeavesTheBoard | back/internal/modules/feed/repo/repo.go:154-167 | After a deletion is handled, and until a new contribution, no newly built board lists the video, and from the next minute none does, cached boards included. |
| HotRank.FirstPageOfAMinuteIsNew | back/internal/modules/feed/repo/repo.go:92-109 | A cached board is never older than its minute: the first page asked for in a new minute is newly merged. |
| HotRank.OneBoardAMinute | back/internal/modules/feed/repo/repo.go:92-109 | The pages of one minute are cut from one board: what one of them is served, every later one of that minute and window is served too, whatever is scored and deleted in between. |
| HotRank.ServedBoardCountsPeople | back/internal/modules/feed/repo/repo.go:92-109 | A newly built board served for a window of n minutes counts the people of the last n, of 60 when none is named, and of 70 at most. |
| HotRank.RemovalIsExact | back/internal/modules/feed/repo/repo.go:154-167 | A deletion takes the video out of the buckets of the last 70 minutes and leaves every other weight. |
| HotRank.HotRepo.ScoreOnce | back/internal/modules/feed/repo/repo.go:57-82 | The script as one step: the mark is the gate, then the event's own minute gets the weight and both lifetimes are set. |
| HotRank.HotRepo.ScoreEvent | back/internal/modules/feed/logic.go:319-343 | Normalises the time of the event, drops the ones too late, and scores with a mark lifetime that depends on the lateness. |
| HotRank.HotRepo.MergeHotBuckets | back/internal/modules/feed/repo/repo.go:141-152 | The loop over minute keys merges exactly the live buckets of the window into the cached board. |
| HotRank.HotRepo.HotScores | back/internal/modules/feed/repo/repo.go:92-109 | Reads the cached board of this minute, or builds it when it is absent. |
| HotRank.HotRepo.RemoveFromHotBuckets | back/internal/modules/feed/repo/repo.go:154-167 | Removes the video from each of the last `minutes` buckets and from nothing else. |
| SortedSet.TrimIsHighest | back/internal/modules/feed/repo/repo.go:212-227 | Trimming a sorted set by rank leaves exactly its n highest members. |
| FollowIndex.InboxIsTop | back/internal/modules/feed/repo/repo.go:211-249 | After any sequence of pushes and backfills, reordered and repeated at will, an inbox is exactly the 1000 highest of all entries ever offered to it, if a member always carries one score. |
| FollowIndex.OutboxIsTop | back/internal/modules/feed/repo/repo.go:251-266 | The same for an outbox and its 500 highest. |
| FollowIndex.RescoringLosesAnEntry | back/internal/modules/feed/repo/repo.go:211-227 | Without one score per member the claim is false, at every length: a member pushed above a full set and then scored below it has driven out the lowest entry for good, which trimming at the end would keep. |
| FollowIndex.RescoringAVideoLosesAnother | back/internal/modules/feed/repo/repo.go:211-227 | So in a full inbox of 1000: a video announced too new and again too old costs the oldest video its place. |
| FollowIndex.PublishedReachesFollowers | back/internal/modules/feed/logic.go:223-278 | A user the follower set held throughout ends with the video in the inbox or in the author's outbox, unless newer entries crowded it out, whichever side of the 5000 threshold the author was counted on and whatever else ran. |
| FollowIndex.PublishingGoesOneWay | back/internal/modules/feed/logic.go:223-278 | An author without a follower in the set, or with at least 5000, writes the outbox once; any other writes the inboxes of exactly those the scan returns. |
| FollowIndex.BoxesAreBounded | back/internal/modules/feed/repo/repo.go:211-266 | No run fills an inbox beyond 1000 or an outbox beyond 500. |
| FollowIndex.IncompletePushesAreIgnored | back/internal/modules/feed/repo/repo.go:211-266 | Pushes without a video, a time, a follower or an author change nothing. |
| FollowPage.PageIsSortedUnion | back/internal/modules/feed/repo/repo.go:292-391 | If the filters drop at most d of the entries fetched from any one source, sources are in (score, ID) order and a video has one score, then the first limit − d items of the page are the first limit − d of the sorted union of everything visible. |
| FollowPage.PageIsSound | back/internal/modules/feed/repo/repo.go:292-391 | Whatever the index holds, a page is strictly descending in (score, ID), without repeats, strictly below the cursor, at most limit long, and made of entries by authors followed now. |
| FollowPage.TieSafeIsAligned | back/internal/modules/feed/repo/repo.go:323-332 | The order Redis gives meets the demand above whenever entries of equal score stand in ID order. |
| FollowPage.SameWidthIsTieSafe | back/internal/modules/feed/repo/repo.go:189-201 | They do while videos indexed at one millisecond have IDs of equal decimal length, because Redis breaks ties by member bytes. |
| FollowMiss.PageMissesNothingExactlyWhenFewOlder | back/internal/modules/feed/repo/repo.go:323-391 | Exactly when a page of one source loses nothing, at any page size, behind any cursor, whatever the filters drop: of the n items kept of what was fetched, each item in view that was not fetched has at most max(0, n − shown) older ones. With none kept that means that there is nothing in view. |
| FollowMiss.FirstPagesMissNothingExactlyWhenFewOlderBefore | back/internal/modules/feed/repo/repo.go:323-391 | With `extra` entries fetched beyond those shown, and every entry of the source counting, the first pages of all sizes lose nothing if and only if no entry stands behind more than `extra` older ones. |
| FollowMiss.NoExtraMeansAligned | back/internal/modules/feed/repo/repo.go:365-388 | Without extra entries the condition for first pages is that the source is in (score, ID) order, which for a sorted set is that equal scores stand in ID order. |
| FollowMiss.NothingMissed | back/internal/modules/feed/repo/repo.go:323-391 | If the filters drop at most d, it is enough that no entry stands behind more than extra − d older ones. |
| FollowPage.MembersRoundTrip | back/internal/modules/feed/repo/repo.go:393-416 | Parsing gives back the video and author of every member the pushes write. |
| FollowPage.IndexedIsVisible | back/internal/modules/feed/repo/repo.go:294-326 | A video in the reader's inbox or in a followed author's outbox is among what the first page is cut from. |
| FeedRepo.Repo.FollowPage | back/internal/modules/feed/repo/repo.go:292-391 | The fetch, filter, deduplicate, sort and cut loops compute the page function; unavailable exactly when no source yields anything. |
| FeedRepo.Repo.Collect | back/internal/modules/feed/repo/repo.go:345-372 | One source's loop appends its surviving, unseen candidates in order. |
| FeedRepo.Repo.ListSources | back/internal/modules/feed/repo/repo.go:299-321 | Lists the inbox, then the outbox of every followed author that has one. |
| FeedRepo.Repo.PushInboxItems | back/internal/modules/feed/repo/repo.go:211-227 | Pushes one item to many inboxes, trimming each: one machine step per follower. |
| FeedRepo.Repo.PushInboxItemsForFollower | back/internal/modules/feed/repo/repo.go:229-249 | Pushes many items to one inbox and trims once. |
| FeedRepo.Repo.PushOutboxItem | back/internal/modules/feed/repo/repo.go:251-266 | Pushes to the author's outbox and trims it. |
| FeedRepo.Repo.HasOutbox | back/internal/modules/feed/repo/repo.go:268-290 | Says for every author listed whether an outbox exists. |
| FollowFeed.WalkNeverRepeats | back/internal/modules/feed/logic.go:151-221 | A walk through the feed never shows a video twice, even while videos are published, hidden, deleted and indexed between its pages, and in whatever mixture pages come from the index and the table. |
| FollowFeed.Walk | back/internal/modules/feed/logic.go:151-221 | A walk over pages that lie below their cursors ends, whatever the pages are, and all of it lies below its first cursor: (created ms, ID) of the cursor is a well-founded measure. |
| FollowFeed.FeedDescends | back/internal/modules/feed/logic.go:151-221 | The feed's pages are such pages, however the world changes between them. |
| FollowFeed.PageDescends | back/internal/modules/feed/logic.go:151-221 | Each page is descending in (create time, ID) and strictly below the cursor it was asked with. |
| FollowFeed.FeedServesNewest | back/internal/modules/feed/logic.go:151-204 | If the filters drop at most d per source and at most 20 − d of the newest candidates have lost their published row, the page is exactly the newest `limit` published videos visible below the cursor; when there is none of these, it is the table's page. |
| FollowFeed.PageShowsPublishedRows | back/internal/modules/feed/logic.go:151-204 | Every video on a page has a published row, wherever the page comes from, and somebody is followed. |
| FollowFeed.PageFromTableServes | back/internal/modules/video/repo/repo.go:144-156 | A page that the index has nothing for is exactly what the table serves: published videos of authors followed, within both bounds of the cursor, latest first, and none left out unless the page is full of later ones. |
| FollowFeed.FollowingOffersTheLatest | back/internal/modules/feed/logic.go:280-313 | Following someone offers the inbox that author's latest twenty published videos, each at its create time, and nothing else. |
| FollowWalk.WalkShowsEverythingExactlyWhenSufficing | back/internal/modules/feed/logic.go:151-221 | For any index, any rows and any page size, a walk over a world that stands still shows every published video in reach of its first request if and only if, for each page of the walk, of what the page is cut from a pageful or all is newer than every video in reach that is not part of it. |
| FollowWalk.WalkShowsAllExactlyWhenPassingNone | back/internal/modules/feed/logic.go:151-221 | Whatever pages below their cursors a walk reads, and though they change: it shows all of some videos if and only if no page goes past one of those not yet passed. |
| FollowWalk.WalkShowsEverything | back/internal/modules/feed/logic.go:151-221 | While what is lost of each page of the walk stays within the 20 extra entries, as FeedServesNewest has it, a walk over a world that stands still shows every published video in reach. |
| FollowWalk.TiedWalkShowsEverythingExactlyWhenTailIsOlder | back/internal/modules/feed/repo/repo.go:365-372 | Within one millisecond, the case the code speaks of, with everything in one source and every row there: a walk of page size p shows every video if and only if every one that Redis lists at position p + 20 or later is older than all the first p + 20. |
| FollowLoss.FeedMissesNothingExactlyWhenSuffices | back/internal/modules/feed/logic.go:168-200 | Exactly when a page of the feed goes past no published video that the index makes visible, for any number of sources in any order, any cursor, and whatever the filters and the rows leave of what was fetched: each such video is among what the page is cut from, or a pageful or all of that is newer. The page is cut from what is left of the index's page, or, when nothing is, from the table's rows. |
| FollowLoss.FeedMissesNothingExactlyWhenFirstLeftOutsAreOlder | back/internal/modules/feed/logic.go:168-200 | With sources in (score, ID) order, any number of them, and something left of the index's page: it goes past nothing if and only if a pageful or all of what is left is newer than each source's first published video that was not fetched. |
| FollowLoss.OneSourceMissesNothingExactlyWhenFewOlder | back/internal/modules/feed/logic.go:168-200 | With everything in one source and all rows there, a page behind any cursor goes past nothing if and only if each entry in view beyond those fetched has at most max(0, n − limit) older ones among the n that the cursor leaves of the fetch. |
| FollowLoss.OvertakenIsPassedBy | back/internal/modules/feed/logic.go:168-200 | An entry that stands behind more than 20 older ones is gone past by the first page whose fetch ends just before it. |
| FollowWalk.PassedByFeedIsNeverShown | back/internal/modules/feed/logic.go:151-221 | What the first page of a walk goes past is never shown in that walk, whatever happens to the world meanwhile. |
| LostVideos.TiesAcrossWidthsLoseAVideo | back/internal/modules/feed/logic.go:151-204 | For every page size up to 479 there is a run of pushes after which no walk shows a published video of a followed author: limit + 20 videos with IDs up to 999 and the video 1000, all of one millisecond. |
| LostVideos.FilteredEntriesLoseAVideo | back/internal/modules/feed/logic.go:151-204 | For every page size below 980 another: an inbox headed by limit + 20 entries of an author since unfollowed hides the newer video behind them once an older one comes from an outbox. |
| FollowFeed.Logic.GetFollowFeedVideos | back/internal/modules/feed/logic.go:151-204 | Index page, row filter, cut and fallback to the table compute the page function, with the cursor taken from the last row shown and (0, 0) after an empty page. |
| FollowFeed.Logic.ListByAuthorsBefore | back/internal/modules/video/repo/repo.go:143-155 | The table query: published videos of the authors below the cursor, latest first, cut to the limit. |
| FollowFeed.Logic.HandleVideoCreated | back/internal/modules/feed/logic.go:223-257 | Pushes to the outbox or to every follower's inbox as the number of followers decides, and refuses an event without IDs for good. |
| FollowFeed.Logic.FanoutToInboxes | back/internal/modules/feed/logic.go:259-278 | The scan loop pushes the item to every follower of every page. |
| FollowFeed.Logic.HandleFollowSwitched | back/internal/modules/feed/logic.go:280-315 | Following backfills the follower's inbox with the author's latest videos; unfollowing changes nothing. |
| Notify.BoundAtMostCount | back/internal/modules/message/logic.go:246-290 | In every reachable state, over redeliveries, stops between the three statements, reads and cleanups outside a Notify, the details bound to a thread number at most its actor_count, and exactly that many when no Notify stopped midway and none is between counting and binding. |
| Notify.CountsAtMostDetails | back/internal/modules/message/logic.go:246-290 | The actor_counts of all windows of one (user, type, target) add up to at most its details, which are its distinct actors; equal when no Notify stopped midway. |
| Notify.ThreadShowsLatestActors | back/internal/modules/message/repo/repo.go:84-100 | In every reachable state a thread's column reads back as its latest at most three actors, newest first and pairwise different, fits its width, and the last interaction lies in the thread's own 8-hour window. |
| NotifyCleanup.CleanupIsSafeExactlyOutsideNotify | back/internal/modules/message/repo/repo.go:146-176 | From any reachable state, deleting a set of threads leaves every continuation with counts that cover the bound details if and only if none of the threads lies between some Notify's count and its binding. |
| NotifyCleanup.CleanupComesInside | back/internal/modules/message/repo/repo.go:146-176 | Cleanup does delete there: of something long past, a thread counted, not yet bound and read at once is stale for every limit after the event. |
| NotifyCleanup.DeletesOnlyStaleExactlyUnlessReopened | back/internal/modules/message/repo/repo.go:148-170 | An interaction between picking and deleting: what is deleted is still stale if and only if the interaction's thread was not picked; otherwise it is deleted unread. |
| Notify.NotifyIsThreeSteps | back/internal/modules/message/logic.go:246-290 | An uninterrupted Notify is three steps of the machine. |
| Notify.NotifyTells | back/internal/modules/message/logic.go:246-291 | A new interaction leaves the thread of its 8-hour window unread, dated by it, one actor and one count longer, its detail bound to that thread and all else as it was; a known one changes nothing. |
| Notify.StoppedBeforeTheThreadIsLost | back/internal/modules/message/logic.go:246-291 | A Notify that stops between its first statement and its second is never counted nor bound, whatever runs afterwards, its own redeliveries included. |
| Notify.CleanupDeletesExactlyTheOldAndRead | back/internal/modules/message/repo/repo.go:146-176 | From any reachable state a cleanup deletes a thread if and only if it is read and was last added to before the limit, and a detail if and only if it is bound to such a thread; the rest is as it was. |
| Notify.ReadMarksOnlyTheReaders | back/internal/modules/message/repo/repo.go:133-144 | Reading marks the reader's own threads, all of them or those listed, and changes nothing else. |
| Notify.Repo.Insert | back/internal/modules/message/repo/repo.go:74-82 | The unique key decides; a second insert changes nothing. |
| Notify.Repo.Upsert | back/internal/modules/message/repo/repo.go:84-100 | A new thread starts at one actor; an existing one adds one, prepends the actor, and becomes unread again. |
| Notify.Repo.Bind | back/internal/modules/message/repo/repo.go:104-112 | Binds the detail to the thread the window names; fails when it is gone. |
| Notify.Repo.Notify | back/internal/modules/message/logic.go:246-290 | Gate, count, bind; a repeated interaction stops at the gate with nothing changed. |
| Notify.Repo.Cleanup | back/internal/modules/message/repo/repo.go:146-176 | The batch loop ends having deleted exactly the read threads older than the limit and the details bound to them, and returns how many threads. |
| ActorList.ColumnReadsBackLatest | back/internal/modules/message/repo/repo.go:84-100 | After any sequence of upserts, reading the column gives the latest at most three actors, newest first; it never exceeds 62 characters, so varchar(255) never cuts it. |
| ActorList.ColumnIsRendering | back/internal/modules/message/repo/repo.go:84-100 | SUBSTRING_INDEX over the concatenation renders the latest three. |
| ActorList.SplitActorIDs | back/internal/modules/message/repo/repo.go:178-192 | The loop parses, in order, every part that is a decimal ID after trimming and skips the rest. |
| ActorList.TrimStripsSpaces | back/internal/modules/message/repo/repo.go:178-193 | What is parsed of a part is all of it but the white space at both ends. |
| Backfill.BackfillAddsExactlyTheMissing | back/internal/modules/message/logic.go:303-439 | Backfill leaves every like, comment, reply and follow in the tables notified, adds nothing else, and its five numbers add up to the notifications that were missing, each counted once even when two rows call for the same one. |
| Backfill.WantedExactlyWhenCalledFor | back/internal/modules/message/logic.go:93-231 | The tables call for a notification if and only if there is a row behind it (a like of the author's video or of the commenter's comment, a top-level comment on the author's video, a reply to that user, a follow), the one told has an account, and is not the one who did it. |
| Backfill.CommentTells | back/internal/modules/message/logic.go:157-200 | A comment tells whom it answers, of a reply, or, answering nobody, the author of its video, of a comment; nobody of their own. |
| Backfill.LikeTells | back/internal/modules/message/logic.go:93-136 | A like tells the author of the video or of the comment liked, and nobody of their own. |
| Backfill.FollowTells | back/internal/modules/message/logic.go:221-233 | A follow tells the one followed, and nobody of themselves. |
| Backfill.BackfillReportsKinds | back/internal/modules/message/logic.go:303-440 | Each of the five numbers reported is the number of new notifications of its kind. |
| Backfill.BackfillReportsSkipped | back/internal/modules/message/logic.go:303-440 | The two others are the likes and comments with nobody to tell, and the rows of any table whose receiver has no account. |
| Backfill.BackfillTwiceIsOnce | back/internal/modules/message/logic.go:303-439 | A second Backfill, even with interactions withdrawn in between, changes nothing and reports nothing new. |
| Backfill.LiveOrAfterwards | back/internal/modules/message/logic.go:56-233 | Whether an interaction is notified by its event handler, at whatever time, or by Backfill, the same details end up there and it is counted on one side only. |
| Backfill.NobodyIsToldOfThemselves | back/internal/modules/message/logic.go:92-233 | What Backfill notifies goes to an existing user other than the actor. |
| Backfill.BackfillKeepsTheCounts | back/internal/modules/message/logic.go:303-439 | Backfill on top of any reachable state, beside Notifys under way, is a run of the notification machine, so the counts stay between the bindings and the details. |
| Backfill.BackfillBringsBackWhatCleanupDeleted | back/internal/modules/message/repo/repo.go:146-176 | Cleanup forgets what was notified: the next Backfill notifies again exactly the interactions still in the tables whose thread was cleaned up. |
| Backfill.Logic.Backfill | back/internal/modules/message/logic.go:303-439 | Three loops, each page by page behind a cursor with any batch size, go through every row of each table once and in ID order. |
| Backfill.Logic.PageRows | back/internal/modules/message/repo/repo.go:217-242 | The first rows behind the cursor, lowest ID first. |
| Backfill.AfterPage | back/internal/modules/message/repo/repo.go:217-242 | Behind the last row of a page are exactly the rows that were behind the page. |
| Backfill.Logic.HandleLikeSwitched | back/internal/modules/message/logic.go:57-90 | Only a like notifies; missing IDs are refused for good; an unknown kind of target is passed over. |
| Backfill.Logic.HandleCommentCreated | back/internal/modules/message/logic.go:136-155 | A reply is for whom it answers, a top-level comment for the video's author; a missing ID is refused for good. |
| Backfill.Logic.HandleFollowSwitched | back/internal/modules/message/logic.go:201-219 | Following notifies the one followed, unfollowing does nothing, and nothing is ever taken back. |
| Paging.ThreadPagesAreTheList | back/internal/modules/message/repo/repo.go:114-123 | On a fixed table the pages of notifications concatenate to the whole (last_at, ID)-descending list, each thread once, at every page size. |
| Paging.ShownThreadsAreTheList | back/internal/modules/message/logic.go:441-467 | That holds for what is shown too, when threads are dropped on assembly: the cursor comes from the threads read. |
| Paging.WalkDescends | back/internal/modules/video/repo/repo.go:157-166 | Under either cursor, at any page size, no row is repeated and rows come in list order. |
| Paging.CompleteExactlyWhenAgreeing | back/internal/modules/comment/repo/repo.go:132-156 | The lists that ask for "created_at <= c AND id < i" show the whole table at every page size if and only if IDs and create times agree in order. |
| Paging.Select | back/internal/modules/video/repo/repo.go:114-123 | The query returns the first `limit` matching rows in list order. |
| Paging.ListMine | back/internal/modules/message/logic.go:441-467 | One call: page, assembly and next cursor. |
| Paging.ListLimit | back/internal/modules/message/logic.go:47-55 | A page holds as many threads as asked for, 20 when none is named and 50 at most. |
| Comments.CountersNeverExceedRows | back/internal/modules/comment/repo/repo.go:38-122 | With reads outside their transactions and everything interleaved freely, no comment_count or reply_count is negative or exceeds the rows it counts, and a reply shares its parent's video. |
| Comments.SerialCountersAreExact | back/internal/modules/comment/logic.go:44-170 | With requests handled one at a time both counters are exact, and GREATEST never clamps. |
| Comments.SerialIsARun | back/internal/modules/comment/logic.go:44-131 | Requests one at a time are one of the interleavings. |
| Comments.CreateAddsOneRow | back/internal/modules/comment/logic.go:44-131 | A comment is taken if and only if its video is out and the comments it names are there and of that video; it then adds that one row, answering the commenter of the comment named, and counted once at the video and once at the parent. |
| Comments.DeleteTakesTheThread | back/internal/modules/comment/logic.go:134-171 | A deletion is its commenter's alone and takes the comment with its direct replies; the video's counter falls by the rows that go and the parent's by one, neither below 0. |
| CommentDrift.CountersLagByVainDeletions | back/internal/modules/comment/repo/repo.go:70-122 | Over every interleaving, comment_count and reply_count are behind their rows by exactly the deletions in vain whose decrement took effect, less what was held back at 0. |
| CommentDrift.ExactAfterwardsExactlyWhenHarmless | back/internal/modules/comment/repo/repo.go:70-112 | From exact counters a transaction, however old its read, keeps both exact if and only if it is no deletion of a row already gone that finds one of its counters above 0. |
| CommentDrift.NoVainDeletionsNoDrift | back/internal/modules/comment/repo/repo.go:38-122 | An interleaving without such deletions ends with every counter exact. |
| CommentDrift.RacingDeletesUndercount | back/internal/modules/comment/logic.go:134-170 | Two deletions of one reply that both read it first leave each counter above 1 one short. |
| Comments.DeletionIsSafeExactlyWhenFlat | back/internal/modules/comment/repo/repo.go:84-112 | With no orphans to begin with, no deletion makes one if and only if no comment is a reply to a reply. |
| Comments.ReplyKeepsFlatExactlyUnderTop | back/internal/modules/comment/logic.go:67-95 | Create keeps the table two-level if and only if the parent it is given is top-level, which it does not check. |
| Comments.TopLevelRepliesLeaveNoOrphans | back/internal/modules/comment/repo/repo.go:49-112 | While replies name only top-level parents, no interleaving of requests leaves an orphan. |
| Comments.Repo.Create | back/internal/modules/comment/logic.go:44-132 | One request in isolation: refused with nothing changed, or one row and its counters. |
| Comments.Repo.Delete | back/internal/modules/comment/logic.go:134-170 | One request in isolation: deleting what is not there succeeds, someone else's comment is refused, a reply or a whole thread goes. |
| Comments.Repo.InsertTop | back/internal/modules/comment/repo/repo.go:38-47 | One transaction: the new row, with no replies, and the video's comment_count. |
| Comments.Repo.InsertReply | back/internal/modules/comment/repo/repo.go:49-68 | One transaction: the parent must exist; the row, the parent's reply_count and the video's comment_count change together. |
| Comments.Repo.RemoveReply | back/internal/modules/comment/repo/repo.go:70-82 | One transaction: the row goes and both counters fall, not below 0. |
| Comments.Repo.RemoveTopWithReplies | back/internal/modules/comment/repo/repo.go:84-112 | One transaction: the comment and its direct replies go and the video's counter falls by their number. |
| Comments.Repo.IncrVideoCommentCount | back/internal/modules/comment/repo/repo.go:114-122 | Adds to the counter of one video, not below 0, and ignores a video that is gone. |
| Comments.Repo.DeleteByVideo | back/internal/modules/comment/repo/repo.go:158-161 | The sweep step of the machine: none of the video's comments is left, every other video keeps all of its own, and no reply is orphaned. |
| VideoStatus.OnlyLegalMoves | back/internal/modules/video/logic.go:154-286 | Over every interleaving of reads, uploads and conditional updates only created→published, created→failed, failed→created, published→private and private→published happen, and once published or private a video is nothing else again. |
| VideoStatus.PublishedOnce | back/internal/modules/video/logic.go:230-286 | created→published is won at most once, and VideoCreated is sent at most once, by the winner. |
| VideoStatus.TheWinnerAnnounces | back/internal/modules/video/logic.go:230-266 | Whoever won the first publication decides for good: VideoCreated is sent once if that request goes on, and never if it stops. |
| VideoStatus.PrivacyAlternates | back/internal/modules/video/logic.go:192-228 | After first publication hiding and showing strictly alternate. |
| DetailCache.CacheShowsTheRow | back/internal/modules/video/logic.go:418-442 | With requests one at a time and a cache that works, a viewer at any moment is shown a video exactly when it is public, or private and theirs, and sees the row itself but for its comment count. |
| DetailCache.ServedRecordsAreRecentAndReal | back/internal/modules/video/logic.go:614-725 | With row read and cache write as separate, interleaved steps, nobody is served a record written more than 300 + 1200 s ago, and every record served is a content the row really had. |
| CacheRace.TruthfulExactlyWhenEveryWriteStands | back/internal/modules/video/logic.go:694-725 | Over any interleaving of loads and requests, the cache is truthful at every moment if and only if every load that writes finds the row as it read it, but for the comment count. |
| CacheRace.WriteIsTruthfulExactlyWhenTheReadStands | back/internal/modules/video/logic.go:694-725 | One write: the record tells the truth if and only if what was read still stands. |
| CacheRace.UndisturbedLoadsKeepTheCacheTruthful | back/internal/modules/video/logic.go:694-725 | So the cache is truthful throughout every history in which no row changes between a load's read and its end. |
| CacheRace.InterleavedLoadOutlivesTheRow | back/internal/modules/video/logic.go:444-483 | Otherwise not: a load that read just before a deletion writes the record of a row that is gone. |
| CacheRace.RecordOutlivesItsRowExactlyWhenSetForGood | back/internal/modules/video/logic.go:456-463 | Exactly when a deletion leaves a record behind, over every history that follows its drop without another: at a moment when the row is gone the cache holds a record of it if and only if a load that read the published row landed, or a request warmed the record, and no load that found nothing has landed since. |
| CacheRace.LoadInsideADeletionOutlivesTheRow | back/internal/modules/video/logic.go:456-463 | A whole load between a deletion's two halves is such a history, and the reader is served the video. |
| CacheRace.WaiterGetsAValueExactlyWhen | back/internal/modules/video/logic.go:661-687 | From the moment a reader starts to wait until its load lands, whatever happens in between, it gets a value if and only if the load succeeds and was not under way to refresh a stale record when the reader came. |
| CacheRace.ReaderJoinsARefreshOnlyAfterLosingTheRecord | back/internal/modules/video/logic.go:614-687 | A reader joins a refresh only if the record was dropped since the refresh began or has aged out; while nothing warms it again, that is also when the next reader does. |
| CacheRace.JoiningARefreshFails | back/internal/modules/video/logic.go:641-687 | Such a run exists: stale record, refresh, invalidation, the next reader waits and is given an error when the refresh lands. |
| DetailCache.PublishSucceedsEmptyHanded | back/internal/modules/video/logic.go:230-266 | A successful publish leaves the video public if and only if it had not been marked failed. |
| DetailCache.OnlyTheAuthorMovesTowardsTheTarget | back/internal/modules/video/logic.go:154-286 | A status request changes nothing but the status of its video, only for the author, to the status asked for and by a legal move; the record is then gone, or new where everyone may see it, and an event goes out if the video is now published or private. |
| DetailCache.StatusMovesExactlyWhen | back/internal/modules/video/logic.go:154-266 | And it does so if and only if the row is the author's and in the status from which the target is reached, with both objects uploaded, the video not empty, and neither above 10 GB and 10 MB, where it is first published. |
| DetailCache.StatusRefusals | back/internal/modules/video/logic.go:154-266 | Which error a refused request is told, and that asking for the status a video has already succeeds. |
| DetailCache.StatusIsARun | back/internal/modules/video/logic.go:154-286 | The author's request is one of the racing requests of the status machine that meets no other: same status, same moves. |
| DetailCache.OnlyTheAuthorDeletes | back/internal/modules/video/logic.go:444-483 | Only the author deletes; nobody is then shown the video, no other row changes, and the announcement or the removal of the objects follows from its status. |
| DetailCache.RecordLives | back/internal/modules/video/logic.go:614-725 | What a load leaves is answered with for 300 s untouched and 1200 s more while it is refreshed, and then not at all; a marker for two minutes. |
| DetailCache.StaleIsServedAndRefreshed | back/internal/modules/video/logic.go:614-639 | A record is served as it is until 1200 s past its expiry, read anew behind the answer once it has expired, and after that only the row counts. |
| DetailCache.LoadShowsTheRow | back/internal/modules/video/logic.go:694-725 | A load shows the row to exactly those who may see it, and leaves a record of a published row, a marker for none, and nothing for any other. |
| DetailCache.StoredLikesAreShown | back/internal/modules/video/logic.go:504-528 | A stored count of likes is what everyone who may see the video is shown next. |
| DetailCache.RequestIsAHistory | back/internal/modules/video/logic.go:614-725 | Every request made while no load is under way is a history of the interleaved events that leaves the same rows and the same cache. |
| DetailCache.AskAgreesWithGet | back/internal/modules/video/logic.go:614-687 | A reader among loads is told what it would be told alone, except that it waits where it would have loaded, for the load under way or for its own. |
| DetailCache.Logic.MarkStatus | back/internal/modules/video/repo/repo.go:172-181 | Changes one row of the author's if it is in the status named, and says whether it did. |
| DetailCache.Logic.RefreshInfoCache | back/internal/modules/video/logic.go:288-303 | Writes the record of a published video and drops it for any other status. |
| DetailCache.Logic.TransitionStatus | back/internal/modules/video/logic.go:268-286 | Conditional update, then the cache if it won. |
| DetailCache.Logic.SwitchPrivateStatus | back/internal/modules/video/logic.go:192-228 | Hide or show, with the errors for a wrong status, and an event if it won. |
| DetailCache.Logic.PublishVideo | back/internal/modules/video/logic.go:230-266 | Checks both uploads, marks failed or published, and sends the event if it won. |
| DetailCache.Logic.ChangeStatus | back/internal/modules/video/logic.go:154-190 | The whole decision table of a status request. |
| DetailCache.Logic.Delete | back/internal/modules/video/logic.go:444-483 | Only the author deletes; the record goes and then the row; VideoDeleted is published exactly for a video that has been out, and of any other the objects are removed at once. |
| DetailCache.Logic.HandleLikeSwitched | back/internal/modules/video/logic.go:504-528 | Stores the new count and drops the record. |
| DetailCache.Logic.LoadInfo | back/internal/modules/video/logic.go:694-725 | Reads the row and writes a record, or a miss marker when there is nothing public. |
| DetailCache.Logic.GetInfoWithCache | back/internal/modules/video/logic.go:614-639 | Fresh record, stale record, marker, or load, by age. |
| Converge.CountsConverge | back/internal/modules/like/logic.go:70-95 | In every reachable state a stored like or follow count equals its set's size, or an event that will correct it is unsent, undelivered or in work; so at rest all are exact under any reordering, duplication, overlap of handlers and failed publication, as long as counts are stored in the order in which they were read and only changes that nobody has read or overwritten are rolled back. |
| Converge.CountsArePeople | back/internal/modules/like/logic.go:70-95 | At the end of every run, when nothing about a counter is under way, the stored count is the number of users for whom the last request or withdrawal switched it on: who likes the video, who likes the comment, whom the user follows, who follows the user. |
| Converge.LikeChangesItsTarget | back/internal/modules/like/repo/repo.go:42-68 | A like changes the set of its target by its user and no other set, and its event names the counter of that video or that comment alone. |
| Converge.FollowChangesBothSides | back/internal/modules/follow/repo/repo.go:47-80 | A follow that finds its first side as asked changes nothing; any other changes both sides by one user each and no other set, and its event names both counters. |
| Converge.OpenExactlyUntilSeen | back/internal/modules/like/logic.go:70-95 | A change is open to being taken back until it is published or taken back, exactly as long as nobody has read a counter it is about and no other request has changed the same membership. |
| Converge.SerialHandlersAreInOrder | back/internal/modules/user/logic.go:168-196 | Handling each counter's events one at a time stores counts in the order of their reads. |
| Converge.StoringOutOfOrderSticks | back/internal/modules/video/logic.go:504-528 | One store out of order, from a reachable state in which all is right, leaves a wrong count and nothing that will correct it. |
| Converge.RollingBackWhatWasReadSticks | back/internal/modules/like/logic.go:70-95 | So does taking back a change that a handler has read. |
| Converge.RollingBackARivalSticks | back/internal/modules/like/logic.go:70-95 | And so do a like and an unlike of one user that both fail to publish, though nobody reads: taken back in the order in which they came, they leave a like that no count knows. |
| Converge.Interactions.SetMember | back/internal/modules/like/repo/repo.go:42-68 | The set scripts: write only on a difference, and say whether there was one. |
| Converge.Interactions.Switch | back/internal/modules/like/logic.go:70-95 | Set, publish if something changed, write back if publishing fails. |
| Converge.Interactions.Recount | back/internal/modules/user/logic.go:168-196 | Refuses an event without IDs for good; otherwise stores the size of each set the event names and nothing else. |
| Consumer.LetGoExactlyForACause | back/internal/platform/mq/consumer/consumer.go:112-168 | Over any number of deliveries, before and after an acknowledgement, a message of a subscribed topic is let go exactly when some attempt handled it or kept it in the failed topic, and the number of such attempts is the number of times it was handled or kept. |
| Consumer.AcknowledgedExactlyFor | back/internal/platform/mq/consumer/consumer.go:112-168 | A message is acknowledged if and only if nobody here wants it, its handler succeeded, or an incurable error of it was kept in the failed topic; only the last forwards it. |
| Consumer.Registry.ByTopic | back/internal/platform/mq/consumer/consumer.go:65-80 | Refuses a topic subscribed twice, and otherwise maps every topic to its handler. |
| Replay.TableCatchesUp | back/internal/modules/like/logic.go:191-215 | If each key's switches are consumed in the order of the set changes, the head possibly again and again, the pending ones applied to the table give the set's membership; drained, row exists if and only if member. |
| Replay.DrainingBringsTheRow | back/internal/modules/like/logic.go:191-215 | From any reachable state, handling a key's pending switches one after another empties its queue and brings its row in line with the set, and no other. |
| Replay.SwitchSetsTheMember | back/internal/modules/like/logic.go:70-95 | A switch that is published, or needs no publishing, leaves the membership as asked and queues what it changed; one that cannot be published changes nothing. |
| Replay.AnyDeliveryIsRightExactlyAtEvenLag | back/internal/modules/like/logic.go:191-215 | Delivered in any other way, the row is right if and only if the last switch delivered is an even number before the last published. |
| Replay.LikeTable.HandleSwitched | back/internal/modules/like/logic.go:191-215 | Insert-if-absent or delete of one row, and a permanent error for missing IDs or an unknown target. |
| Reconcile.SetFollowKeepsMirror | back/internal/modules/follow/repo/repo.go:47-80 | Following and unfollowing keep "b in follow[a] iff a in follower[b]" and put both directions in the state asked for. |
| Reconcile.SetFollowReports | back/internal/modules/follow/repo/repo.go:47-80 | The script reports a change exactly when the first set was not as asked, and otherwise writes nothing. |
| Reconcile.SetFollowRepairsExactlyWhenFirstDiffers | back/internal/modules/follow/repo/repo.go:47-80 | On families already apart, the reverse set ends as asked if and only if the first set differed or the reverse set was right. |
| Reconcile.RestoredSets | back/internal/modules/follow/repo/repo.go:217-246 | Restoring adds exactly the table's rows to both families. |
| Reconcile.RestoreKeepsMirror | back/internal/modules/follow/repo/repo.go:217-246 | Restoring keeps the two families mirrored. |
| Reconcile.SyncAgrees | back/cmd/consistency/main.go:245-305 | After the sync, the table, the follow sets and the follower sets are one relation: the old table joined with the old sets. |
| Reconcile.CountsBalance | back/internal/modules/follow/repo/repo.go:157-166 | All follow counts together equal all follower counts together. |
| Reconcile.KeyNamesRoundTrip | back/cmd/consistency/main.go:120-131 | A key's name parses to the ID it was made from. |
| Reconcile.RecountIsIdempotent | back/cmd/consistency/main.go:325-383 | After a real run no row is wrong, so a second one changes nothing. |
| Reconcile.MigrationAgrees | back/cmd/consistency/main.go:385-397 | After sync and recount every user row's counters equal the number of rows of the table in which the user follows, and is followed. |
| Reconcile.DryRunPredictsWhenSetsAreComplete | back/cmd/consistency/main.go:245-305 | The dry run of the follow migration predicts the rows the real run corrects whenever the table's rows are all in the sets. |
| Reconcile.DryRunMissesLostSets | back/cmd/consistency/main.go:245-305 | For every row missing from the sets there is a stale count that the dry run passes and the real run corrects. |
| Reconcile.CountSets | back/cmd/consistency/main.go:325-345 | Any complete scan, with repeated keys and stray names, yields each set's size. |
| Reconcile.Tool.CountDiffering | back/cmd/consistency/main.go:346-361 | The dry run counts exactly the rows that differ from their set's size. |
| Reconcile.Tool.UpdateDiffering | back/cmd/consistency/main.go:362-383 | The real run's conditional updates, then the zeroing, leave every row right and number exactly the rows that differed. |
| Reconcile.Tool.Recount | back/cmd/consistency/main.go:325-383 | Both modes return the number of wrong rows; the real run leaves every row equal to its set's size, 0 without a set; the dry run changes nothing. |
| Reconcile.Tool.RebuildFollowCounts | back/cmd/consistency/main.go:385-397 | Both follow counters recounted, both predictions reported. |
| Reconcile.Tool.RestoreSets | back/internal/modules/follow/repo/repo.go:217-246 | The loop over rows adds each to both families. |
| Reconcile.Tool.SyncFollowRows | back/cmd/consistency/main.go:245-305 | The real run inserts and reports the rows missing from the table, however often a key was scanned, and restores the sets; the dry run changes nothing and reports the places at which the scan lists a missing row. |
| Reconcile.DryRunPredictsExactlyWithoutRepeats | back/cmd/consistency/main.go:253-281 | The dry run never predicts too few insertions, and predicts the real number if and only if no missing pair was scanned twice. |

## Left out

- Hot ranking: scores are integers, where Redis has floating point; a minute is its number, not the text of its key.
- In a run of the hot ranking, pages and deletions read their clock and execute at one time; BoardCountsPeople and MergeIsExactExactlyInTime separate the two.
- The order of the hot list within a page, its offset paging and the re-sorting of equal scores by create time.
- The 30-day lifetime of inboxes and outboxes; an index key is there once written.
- Sub-millisecond parts of times; the mark's lifetime is still in whole seconds, rounded as the code rounds it.
- NULL counter columns, time zones, text lengths other than that of actor_ids.
- Comment text, its trimming and its refusal when empty, commenter names, and the sweeping of a deleted comment's likes.
- Notification text and titles, read_at, and the number of rows MarkRead reports.
- The tables do not change while Backfill runs, and row IDs are not 0.
- The favorite module, which repeats the shape of likes; the favorite half of the tool.
- Deleting the like and favorite sets of a deleted video while events for it are under way, and counters of rows that are gone.
- Video counts of users, recomputed from a COUNT query in the same way as the counters here.
- Nicknames and avatars copied into videos and comments when a user changes them.
- The tool's like rows, content counters and orphan report; a scanned key whose name is a padded number is outside CountSets.
- Errors of Redis or MySQL in the middle of an operation, except where a machine has a step for stopping midway; delivery that ends at the retry limit; loss of Redis data.
- The single-flight group is one load per video at a time, without the timeouts of its contexts.
- In SyncFollowRows and RestoreSets the order of rows is a parameter or arbitrary; the batches of 500 or 1000 are not modelled.
- Concurrent changes while the offline tool runs.
- HTTP, authentication, configuration, uploads beyond an object's size, and the front end.
- CountersNeverExceedRows: bounds the counts and does not equate them, because racing deletions do undercount; CountersLagByVainDeletions says by how much.
- BoundAtMostCount: equality is claimed only when no Notify stopped midway, because a redelivery stops at the gate and never resumes the later statements.
- WalkDescends: says nothing about completeness, which CompleteExactlyWhenAgreeing settles.
