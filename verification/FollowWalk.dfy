/** Walks through the follow feed: what a page skips no later page shows, and exactly when a walk over a world that
    stands still shows everything. */
module FollowWalk {
  import opened Ranking
  import opened Text
  import opened SortedSet
  import opened FollowIndex
  import opened FollowPage
  import opened FollowFeed
  import opened FollowMiss
  import opened FollowLoss

  // ------------------------------------------------------------------ skipped is lost

  /** A video that the first page of a walk goes past is never shown, whatever the later pages are. */
  lemma SkippedIsNeverShown(pages: (nat, int, Id) -> seq<Shown>, created: Id -> nat, v: Id)
    requires PagesDescend(pages, created) && PassedBy(pages(0, 0, 0), created, v)
    ensures !IsShown(Walk(pages, created, 0, 0, 0), v)
  {
    var feed := pages(0, 0, 0);
    assert Descends(feed, created, 0, 0);
    NotBelow(feed, Walk(pages, created, 1, feed[|feed| - 1].createdAt, feed[|feed| - 1].id), created, v);
  }

  lemma NotBelow(feed: seq<Shown>, rest: seq<Shown>, created: Id -> nat, v: Id)
    requires PassedBy(feed, created, v) && feed[|feed| - 1].id > 0
    requires Descends(rest, created, feed[|feed| - 1].createdAt, feed[|feed| - 1].id)
    ensures !IsShown(feed + rest, v)
  {
    forall i | 0 <= i < |feed + rest| ensures (feed + rest)[i].id != v {
      if i >= |feed| {
        assert (feed + rest)[i] == rest[i - |feed|];
      } else {
        assert (feed + rest)[i] == feed[i];
      }
    }
  }

  /** So is one that the feed's first page goes past, however the world changes under the walk. */
  lemma PassedByFeedIsNeverShown(worlds: nat -> World, user: Id, created: Id -> nat, limit: nat, v: Id)
    requires (forall k :: Consistent(worlds(k), created))
             && PassedBy(FeedPage(worlds(0), user, limit, 0, 0), created, v)
    ensures PagesDescend(Feed(worlds, user, limit), created)
    ensures !IsShown(Walk(Feed(worlds, user, limit), created, 0, 0, 0), v)
  {
    FeedDescends(worlds, user, created, limit);
    SkippedIsNeverShown(Feed(worlds, user, limit), created, v);
  }

  // ------------------------------------------------------------------ exactly when a walk shows everything

  /** What of these a cursor has not passed. */
  function Behind(items: set<HotItem>, createdAt: int, lastId: Id): set<HotItem> {
    set v | v in items && (lastId > 0 ==> Newer(HotItem(lastId, createdAt), v))
  }

  ghost predicate ShowsAll(s: seq<Shown>, items: set<HotItem>) { forall v :: v in items ==> IsShown(s, v.id) }

  /** Something holds of every request of a walk, from this one on. */
  ghost predicate Along(pages: (nat, int, Id) -> seq<Shown>, created: Id -> nat, good: (nat, int, Id) -> bool,
                        k: nat, createdAt: nat, lastId: Id)
    requires PagesDescend(pages, created)
    decreases if lastId == 0 then 1 else 0, createdAt, lastId
  {
    var page := pages(k, createdAt, lastId);
    assert Descends(page, created, createdAt, lastId);
    good(k, createdAt, lastId) &&
    (page == [] ||
     var last := page[|page| - 1];
     assert lastId > 0 ==> Below(last, createdAt, lastId);
     Along(pages, created, good, k + 1, last.createdAt, last.id))
  }

  lemma {:induction false} AlongAgrees(pages: (nat, int, Id) -> seq<Shown>, created: Id -> nat, good: (nat, int, Id) -> bool,
                                       fine: (nat, int, Id) -> bool, k: nat, createdAt: nat, lastId: Id)
    requires PagesDescend(pages, created) && Along(pages, created, good, k, createdAt, lastId)
    requires forall i: nat, c: int, l: Id :: good(i, c, l) ==> fine(i, c, l)
    ensures Along(pages, created, fine, k, createdAt, lastId)
    decreases if lastId == 0 then 1 else 0, createdAt, lastId
  {
    var page := pages(k, createdAt, lastId);
    assert Descends(page, created, createdAt, lastId);
    if page != [] {
      var last := page[|page| - 1];
      assert lastId > 0 ==> Below(last, createdAt, lastId);
      AlongAgrees(pages, created, good, fine, k + 1, last.createdAt, last.id);
    }
  }

  /** The page goes past none of these that it is still to come to. */
  ghost function PassingNone(pages: (nat, int, Id) -> seq<Shown>, items: set<HotItem>): (nat, int, Id) -> bool {
    (k: nat, createdAt: int, lastId: Id) => PassesNone(pages(k, createdAt, lastId), Behind(items, createdAt, lastId))
  }

  /** One page of a walk. */
  lemma PageAndRest(page: seq<Shown>, rest: seq<Shown>, created: Id -> nat, items: set<HotItem>, createdAt: int, lastId: Id)
    requires page != [] && Descends(page, created, createdAt, lastId) && AllDated(items, created)
    requires Descends(rest, created, page[|page| - 1].createdAt, page[|page| - 1].id)
    ensures var last := page[|page| - 1];
            ShowsAll(page + rest, Behind(items, createdAt, lastId)) <==>
              PassesNone(page, Behind(items, createdAt, lastId))
                && ShowsAll(rest, Behind(items, last.createdAt, last.id))
  {
    var last := page[|page| - 1];
    var here, next := Behind(items, createdAt, lastId), Behind(items, last.createdAt, last.id);
    forall v | v in items ensures IsShown(page + rest, v.id) <==> IsShown(page, v.id) || IsShown(rest, v.id) {
      ShownInFront(page, rest, v.id);
      ShownBehind(page, rest, v.id);
      ShownInEither(page, rest, v.id);
    }
    forall v | v in next ensures v in here && !IsShown(page, v.id) {
      assert lastId > 0 ==> Below(last, createdAt, lastId);
      NotShownAbove(page, created, createdAt, lastId, v);
    }
    forall v | v in here && IsShown(rest, v.id) ensures StillAhead(page, v) && v in next {
      var i :| 0 <= i < |rest| && rest[i].id == v.id;
      assert Below(rest[i], last.createdAt, last.id);
    }
  }

  lemma NotShownAbove(page: seq<Shown>, created: Id -> nat, createdAt: int, lastId: Id, v: HotItem)
    requires Descends(page, created, createdAt, lastId) && v.score == created(v.id) && StillAhead(page, v)
    ensures !IsShown(page, v.id)
  {
    var last := page[|page| - 1];
    forall i | 0 <= i < |page| ensures page[i].id != v.id {
      assert i < |page| - 1 ==> Below(last, page[i].createdAt, page[i].id);
    }
  }

  lemma ShownInFront(feed: seq<Shown>, rest: seq<Shown>, id: Id)
    ensures IsShown(feed, id) ==> IsShown(feed + rest, id)
  {
    if IsShown(feed, id) {
      var i :| 0 <= i < |feed| && feed[i].id == id;
      assert (feed + rest)[i] == feed[i];
    }
  }

  lemma ShownBehind(feed: seq<Shown>, rest: seq<Shown>, id: Id)
    ensures IsShown(rest, id) ==> IsShown(feed + rest, id)
  {
    if IsShown(rest, id) {
      var i :| 0 <= i < |rest| && rest[i].id == id;
      assert (feed + rest)[|feed| + i] == rest[i];
    }
  }

  lemma ShownInEither(feed: seq<Shown>, rest: seq<Shown>, id: Id)
    ensures IsShown(feed + rest, id) ==> IsShown(feed, id) || IsShown(rest, id)
  {
    if IsShown(feed + rest, id) {
      var i :| 0 <= i < |feed + rest| && (feed + rest)[i].id == id;
      assert i >= |feed| ==> rest[i - |feed|].id == id;
    }
  }

  /** Whatever pages below their cursors a walk reads: it shows all of some videos if and only if none of its pages
      goes past one of those then still ahead. */
  lemma {:induction false} WalkShowsAllExactlyWhenPassingNone(pages: (nat, int, Id) -> seq<Shown>, created: Id -> nat,
                                                              items: set<HotItem>, k: nat, createdAt: nat, lastId: Id)
    requires PagesDescend(pages, created) && AllDated(items, created)
    ensures ShowsAll(Walk(pages, created, k, createdAt, lastId), Behind(items, createdAt, lastId)) <==>
              Along(pages, created, PassingNone(pages, items), k, createdAt, lastId)
    decreases if lastId == 0 then 1 else 0, createdAt, lastId
  {
    var page := pages(k, createdAt, lastId);
    assert Descends(page, created, createdAt, lastId);
    if page != [] {
      var last := page[|page| - 1];
      assert lastId > 0 ==> Below(last, createdAt, lastId);
      var rest := Walk(pages, created, k + 1, last.createdAt, last.id);
      WalkShowsAllExactlyWhenPassingNone(pages, created, items, k + 1, last.createdAt, last.id);
      PageAndRest(page, rest, created, items, createdAt, lastId);
    }
  }

  // ------------------------------------------------------------------ over a world that stands still

  lemma CandidateBelow(q: Query, src: Source, e: Entry, x: HotItem)
    ensures (q.lastId > 0 ==> e.score <= q.lastCreatedAt) && Candidate(q, src, e) == Some(x) <==>
              Candidate(First(q.followed), src, e) == Some(x) && BelowCursor(q, x)
  {
  }

  lemma InViewIsBelow(q: Query, src: Source, x: HotItem)
    ensures x in InView(q, src) <==> x in ItemsOf(q.followed, src) && BelowCursor(q, x)
  {
    var z := AtMost(src.entries, MaxScore(q));
    if x in InView(q, src) {
      CandidatesFrom(q, src, z, x);
      var e :| e in z && Candidate(q, src, e) == Some(x);
      CandidateBelow(q, src, e, x);
      CandidatesInclude(First(q.followed), src, src.entries, e);
    }
    if x in ItemsOf(q.followed, src) && BelowCursor(q, x) {
      CandidatesFrom(First(q.followed), src, src.entries, x);
      var e :| e in src.entries && Candidate(First(q.followed), src, e) == Some(x);
      CandidateBelow(q, src, e, x);
      CandidatesInclude(q, src, z, e);
    }
  }

  /** What is in reach of the first request. */
  ghost function Reach(w: World, user: Id, limit: nat): set<HotItem> { InReach(Request(w, user, limit, 0, 0)) }

  lemma SameKeys(r: Request)
    ensures Keys(r) == Keys(r.(createdAt := 0, lastId := 0))
  {
    OutboxesSame(r.w.ix, QueryFor(r), QueryFor(r.(createdAt := 0, lastId := 0)), r.w.following);
  }

  lemma VisibleIsBelow(r: Request, v: HotItem)
    ensures v in Visible(QueryFor(r), Keys(r)) <==>
              BelowCursor(QueryFor(r), v) && exists src :: src in Keys(r) && v in ItemsOf(r.w.following, src)
  {
    var q, keys := QueryFor(r), Keys(r);
    if v in Visible(q, keys) {
      var i :| 0 <= i < |keys| && v in InView(q, keys[i]);
      InViewIsBelow(q, keys[i], v);
      assert keys[i] in keys;
    }
    if BelowCursor(q, v) && exists src :: src in keys && v in ItemsOf(r.w.following, src) {
      var src :| src in keys && v in ItemsOf(r.w.following, src);
      var i :| 0 <= i < |keys| && keys[i] == src;
      InViewIsBelow(q, keys[i], v);
      VisibleFrom(q, keys, i, v);
    }
  }

  /** Behind a cursor, what was in reach at first and is older is in reach. */
  lemma ReachIsBehind(w: World, user: Id, limit: nat, createdAt: int, lastId: Id)
    ensures InReach(Request(w, user, limit, createdAt, lastId)) == Behind(Reach(w, user, limit), createdAt, lastId)
  {
    var r, first := Request(w, user, limit, createdAt, lastId), Request(w, user, limit, 0, 0);
    SameKeys(r);
    forall v ensures v in InReach(r) <==> v in Behind(Reach(w, user, limit), createdAt, lastId) {
      VisibleIsBelow(r, v);
      VisibleIsBelow(first, v);
    }
  }

  lemma ReachIsDated(w: World, user: Id, created: Id -> nat, limit: nat)
    requires Consistent(w, created)
    ensures AllDated(Reach(w, user, limit), created)
  {
    var r := Request(w, user, limit, 0, 0);
    forall v | v in InReach(r) ensures v.score == created(v.id) { SeenIsDated(w, QueryFor(r), created, v); }
  }

  /** Of what each of these pages is cut from, enough is newer than what it leaves out. */
  ghost function Sufficing(w: World, user: Id, limit: nat): (nat, int, Id) -> bool {
    (k: nat, createdAt: int, lastId: Id) => SufficesFor(Request(w, user, limit, createdAt, lastId))
  }

  /** The feed's pages of a world that stands still. */
  ghost function Pages(w: World, user: Id, limit: nat): (nat, int, Id) -> seq<Shown> { Feed(_ => w, user, limit) }

  /** Everything a reader of this world is shown, from the first page on. */
  ghost function WalkOf(w: World, user: Id, created: Id -> nat, limit: nat): seq<Shown>
    requires Consistent(w, created)
  {
    FeedDescends(_ => w, user, created, limit);
    Walk(Pages(w, user, limit), created, 0, 0, 0)
  }

  /** Something holds of every request of that reader. */
  ghost predicate AlongWalk(w: World, user: Id, created: Id -> nat, limit: nat, good: (nat, int, Id) -> bool)
    requires Consistent(w, created)
  {
    FeedDescends(_ => w, user, created, limit);
    Along(Pages(w, user, limit), created, good, 0, 0, 0)
  }

  lemma PageSuffices(w: World, user: Id, created: Id -> nat, limit: nat, k: nat, createdAt: int, lastId: Id)
    requires Consistent(w, created) && limit > 0
    ensures Sufficing(w, user, limit)(k, createdAt, lastId) <==>
              PassingNone(Pages(w, user, limit), Reach(w, user, limit))(k, createdAt, lastId)
  {
    FeedMissesNothingExactlyWhenSuffices(Request(w, user, limit, createdAt, lastId), created);
    ReachIsBehind(w, user, limit, createdAt, lastId);
  }

  /** The exact condition for a walk over a world that stands still, whatever its index holds and whichever rows
      are gone: the walk shows every video in reach of its first request that is out if and only if, for each of
      its pages, enough of what the page is cut from is newer than what the page leaves out. */
  lemma WalkShowsEverythingExactlyWhenSufficing(w: World, user: Id, created: Id -> nat, limit: nat)
    requires Consistent(w, created) && limit > 0
    ensures ShowsAll(WalkOf(w, user, created, limit), Reach(w, user, limit)) <==>
              AlongWalk(w, user, created, limit, Sufficing(w, user, limit))
  {
    var pages, all := Pages(w, user, limit), Reach(w, user, limit);
    FeedDescends(_ => w, user, created, limit);
    ReachIsDated(w, user, created, limit);
    WalkShowsAllExactlyWhenPassingNone(pages, created, all, 0, 0, 0);
    assert Behind(all, 0, 0) == all;
    forall k: nat, c: int, l: Id ensures Sufficing(w, user, limit)(k, c, l) <==> PassingNone(pages, all)(k, c, l) {
      PageSuffices(w, user, created, limit, k, c, l);
    }
    if ShowsAll(WalkOf(w, user, created, limit), all) {
      AlongAgrees(pages, created, PassingNone(pages, all), Sufficing(w, user, limit), 0, 0, 0);
    }
    if AlongWalk(w, user, created, limit, Sufficing(w, user, limit)) {
      AlongAgrees(pages, created, Sufficing(w, user, limit), PassingNone(pages, all), 0, 0, 0);
    }
  }

  // ------------------------------------------------------------------ within the extra entries

  /** What is lost of this page stays within the extra entries fetched. */
  ghost predicate Smooth(r: Request) {
    exists d {:trigger WithinExtra(r.w, QueryFor(r), r.shown, d)} :: WithinExtra(r.w, QueryFor(r), r.shown, d)
  }

  ghost function Smoothing(w: World, user: Id, limit: nat): (nat, int, Id) -> bool {
    (k: nat, createdAt: int, lastId: Id) => Smooth(Request(w, user, limit, createdAt, lastId))
  }

  lemma InViewMeansPage(ix: Index, q: Query, v: HotItem)
    requires q.user != 0 && q.limit > 0 && v in Visible(q, Sources(ix, q))
    ensures Page(ix, q).Some?
  {
    var sources := Sources(ix, q);
    var i :| 0 <= i < |sources| && v in Candidates(q, sources[i], AtMost(sources[i].entries, MaxScore(q)));
    assert Fetch(q, sources[i]) != [] && sources[i] in sources;
  }

  /** A page that stays within the extra entries shows a video in reach, or ends above it. */
  lemma SmoothReaches(r: Request, created: Id -> nat, v: HotItem)
    requires Consistent(r.w, created) && r.w.following != [] && r.user != 0 && r.shown > 0 && Smooth(r)
             && v in InReach(r)
    ensures IsShown(FeedFor(r), v.id) || StillAhead(FeedFor(r), v)
  {
    var q := QueryFor(r);
    var t := Newest(Visible(q, Keys(r)));
    var all := Present(r.w.rows, t);
    assert FeedFor(r) == if all == [] then TablePage(r.w, r.shown, r.createdAt, r.lastId) else Take(all, r.shown) by {
      InViewMeansPage(r.w.ix, q, v);
      var d :| WithinExtra(r.w, q, r.shown, d);
      FeedServesNewest(r.w, r.user, created, r.shown, r.createdAt, r.lastId, d);
    }
    assert Ranked(Later, all) && (forall x :: x in all ==> x.score == x.createdAt) by { InViewInOrder(r.w, q, created); }
    assert v in Elems(t);
    PresentSubset(r.w.rows, t, v);
    RankedShows(all, r.shown, v, r.w.rows[v.id].createdAt);
  }

  lemma InViewInOrder(w: World, q: Query, created: Id -> nat)
    requires Consistent(w, created)
    ensures var all := Present(w.rows, Newest(Visible(q, Sources(w.ix, q))));
            Ranked(Later, all) && forall x :: x in all ==> x.score == x.createdAt
  {
    var t := Newest(Visible(q, Sources(w.ix, q)));
    forall item | item in t && item.id in w.rows ensures w.rows[item.id].createdAt == item.score {
      assert item in Elems(t);
      SeenIsDated(w, q, created, item);
    }
    PresentRanked(w.rows, t);
  }

  lemma RankedShows(all: seq<Shown>, limit: nat, v: HotItem, createdAt: int)
    requires Ranked(Later, all) && (forall x :: x in all ==> x.score == x.createdAt) && limit > 0
    requires Shown(v.score, createdAt, v.id) in all
    ensures IsShown(Take(all, limit), v.id) || StillAhead(Take(all, limit), v)
  {
    var i :| 0 <= i < |all| && all[i] == Shown(v.score, createdAt, v.id);
    var feed := Take(all, limit);
    if i < limit {
      assert feed[i].id == v.id;
    } else {
      assert Later(all[limit - 1], all[i]) && all[limit - 1] in all && all[i] in all;
    }
  }

  lemma SmoothPassesNone(w: World, user: Id, created: Id -> nat, limit: nat, k: nat, createdAt: int, lastId: Id)
    requires Consistent(w, created) && w.following != [] && user != 0 && limit > 0
    requires Smoothing(w, user, limit)(k, createdAt, lastId)
    ensures Sufficing(w, user, limit)(k, createdAt, lastId)
  {
    var r := Request(w, user, limit, createdAt, lastId);
    forall v | v in InReach(r)
      ensures IsShown(FeedFor(r), v.id) || StillAhead(FeedFor(r), v) { SmoothReaches(r, created, v); }
    FeedMissesNothingExactlyWhenSuffices(r, created);
  }

  /** A walk over a world that stands still shows every video in reach that is out, if at each of its pages what is
      lost stays within the extra entries. */
  lemma WalkShowsEverything(w: World, user: Id, created: Id -> nat, limit: nat)
    requires Consistent(w, created) && w.following != [] && user != 0 && limit > 0
    requires AlongWalk(w, user, created, limit, Smoothing(w, user, limit))
    ensures ShowsAll(WalkOf(w, user, created, limit), Reach(w, user, limit))
  {
    FeedDescends(_ => w, user, created, limit);
    WalkShowsEverythingExactlyWhenSufficing(w, user, created, limit);
    forall k: nat, c: int, l: Id | Smoothing(w, user, limit)(k, c, l) ensures Sufficing(w, user, limit)(k, c, l) {
      SmoothPassesNone(w, user, created, limit, k, c, l);
    }
    AlongAgrees(Pages(w, user, limit), created, Smoothing(w, user, limit), Sufficing(w, user, limit), 0, 0, 0);
  }

  // ------------------------------------------------------------------ videos of one moment

  /** One source holds all there is, all of one moment, and the rows' authors are followed. */
  ghost predicate OneMoment(w: World, user: Id, created: Id -> nat, src: Source, moment: int) {
    && OneSource(w, user, created, src)
    && forall item :: item in ItemsOf(w.following, src) ==>
         item.score == moment && item.id in w.rows && w.rows[item.id].author in w.following
  }

  /** Every item from position n on is older than all the first n. */
  predicate TailIsOlder(items: seq<HotItem>, n: nat) {
    forall i, j :: 0 <= i < n <= j < |items| ==> items[j].id < items[i].id
  }

  lemma AllOfTheMoment(r: Request, created: Id -> nat, src: Source, moment: int)
    requires OneMoment(r.w, r.user, created, src, moment) && (r.lastId > 0 ==> r.createdAt >= moment)
    ensures QueryFor(r).limit > 0 && Fetch(QueryFor(r), src) == Take(src.entries, QueryFor(r).limit)
    ensures forall e :: e in src.entries ==> e.score == moment
  {
    forall e | e in src.entries ensures e.score == moment {
      var i :| 0 <= i < |src.entries| && src.entries[i] == e;
      KeptInPlace(First(r.w.following), src, src.entries, i);
      assert ItemsOf(r.w.following, src)[i] in ItemsOf(r.w.following, src);
    }
    AtMostAll(src.entries, MaxScore(QueryFor(r)));
  }

  lemma CandidatesAreBelow(q: Query, src: Source, z: seq<Entry>, x: HotItem)
    requires forall e :: e in z ==> q.lastId > 0 ==> e.score <= q.lastCreatedAt
    ensures x in Candidates(q, src, z) <==> x in Candidates(First(q.followed), src, z) && BelowCursor(q, x)
  {
    if x in Candidates(q, src, z) {
      CandidatesFrom(q, src, z, x);
      var e :| e in z && Candidate(q, src, e) == Some(x);
      CandidateBelow(q, src, e, x);
      CandidatesInclude(First(q.followed), src, z, e);
    }
    if x in Candidates(First(q.followed), src, z) && BelowCursor(q, x) {
      CandidatesFrom(First(q.followed), src, z, x);
      var e :| e in z && Candidate(First(q.followed), src, e) == Some(x);
      CandidateBelow(q, src, e, x);
      CandidatesInclude(q, src, z, e);
    }
  }

  function Head(r: Request, src: Source): seq<HotItem> { Take(ItemsOf(r.w.following, src), r.shown + CANDIDATE_EXTRA) }

  /** Every page is cut from the same first entries. */
  lemma TiedIsKept(r: Request, created: Id -> nat, src: Source, moment: int)
    requires OneMoment(r.w, r.user, created, src, moment) && r.shown > 0
    ensures InReach(r) == Behind(Elems(ItemsOf(r.w.following, src)), r.createdAt, r.lastId)
    ensures (r.lastId > 0 ==> r.createdAt >= moment) ==> Kept(r) == Behind(Elems(Head(r, src)), r.createdAt, r.lastId)
  {
    var q := QueryFor(r);
    OneSourceIsKept(r, created, src);
    forall v ensures v in ViewOf(r, src) <==> v in Behind(Elems(ItemsOf(r.w.following, src)), r.createdAt, r.lastId) {
      InViewIsBelow(q, src, v);
    }
    if r.lastId > 0 ==> r.createdAt >= moment {
      AllOfTheMoment(r, created, src, moment);
      KeptIsInView(q, src);
      AllKeptPrefix(First(q.followed), src, src.entries, |Fetch(q, src)|);
      forall v
        ensures v in Candidates(q, src, Fetch(q, src)) <==> v in Behind(Elems(Head(r, src)), r.createdAt, r.lastId)
      {
        CandidatesAreBelow(q, src, Fetch(q, src), v);
      }
    }
  }

  lemma TiedIsInTable(r: Request, created: Id -> nat, src: Source, moment: int, v: HotItem)
    requires OneMoment(r.w, r.user, created, src, moment) && v in ItemsOf(r.w.following, src)
    requires r.lastId > 0 ==> moment <= r.createdAt && v.id < r.lastId
    requires v.score == created(v.id)
    ensures v in TableItems(r)
  {
    assert Out(r.w, v.id);
    assert Shown(moment, moment, v.id) in TableRows(r.w, r.createdAt, r.lastId);
    assert ItemOf(Shown(moment, moment, v.id)) == v;
  }

  /** When the tail is older, no page goes past anything. */
  lemma OlderTailSuffices(r: Request, created: Id -> nat, src: Source, moment: int)
    requires OneMoment(r.w, r.user, created, src, moment) && r.shown > 0
    requires TailIsOlder(ItemsOf(r.w.following, src), r.shown + CANDIDATE_EXTRA)
    ensures SufficesFor(r)
  {
    TiedIsKept(r, created, src, moment);
    forall v | v in InReach(r) ensures Suffice(CutFrom(r), r.shown, v) {
      if v !in Kept(r) {
        OlderTailReaches(r, created, src, moment, v);
      }
    }
  }

  lemma OlderTailReaches(r: Request, created: Id -> nat, src: Source, moment: int, v: HotItem)
    requires OneMoment(r.w, r.user, created, src, moment) && r.shown > 0
    requires TailIsOlder(ItemsOf(r.w.following, src), r.shown + CANDIDATE_EXTRA)
    requires v in InReach(r) && v !in Kept(r)
    ensures Suffice(CutFrom(r), r.shown, v)
  {
    var items, head := ItemsOf(r.w.following, src), Head(r, src);
    TiedIsKept(r, created, src, moment);
    assert v in items && v.score == moment && (r.lastId > 0 ==> Newer(HotItem(r.lastId, r.createdAt), v));
    HeadIsNewer(items, r.shown + CANDIDATE_EXTRA, moment, v);
    if Kept(r) != {} {
      assert NewerIn(Kept(r), v) == Kept(r);
    } else {
      assert head[0] in head && head[0] !in Behind(Elems(head), r.createdAt, r.lastId);
      SeenIsDated(r.w, QueryFor(r), created, v);
      TiedIsInTable(r, created, src, moment, v);
    }
  }

  lemma HeadIsNewer(items: seq<HotItem>, n: nat, moment: int, v: HotItem)
    requires n > 0 && TailIsOlder(items, n) && v in items && forall x :: x in items ==> x.score == moment
    ensures |Take(items, n)| > 0
    ensures v in Take(items, n) || forall x :: x in Take(items, n) ==> Newer(x, v) && x.score == moment
  {
    var j :| 0 <= j < |items| && items[j] == v;
    if j < n {
      assert Take(items, n)[j] == v;
    } else {
      forall x | x in Take(items, n) ensures Newer(x, v) && x.score == moment {
        var i :| 0 <= i < |Take(items, n)| && Take(items, n)[i] == x;
        assert items[i] in items;
      }
    }
  }

  /** A video that is newer than one before it, and not fetched with it: a page that misses nothing ends above it. */
  lemma NewerTailStaysAhead(r: Request, created: Id -> nat, src: Source, moment: int, i: nat, j: nat)
    requires OneMoment(r.w, r.user, created, src, moment) && r.shown > 0 && SufficesFor(r)
    requires var items := ItemsOf(r.w.following, src);
             i < r.shown + CANDIDATE_EXTRA <= j < |items| && items[i].id < items[j].id
             && (r.lastId > 0 ==> r.createdAt == moment && items[j].id < r.lastId)
    ensures var feed, v := FeedFor(r), ItemsOf(r.w.following, src)[j];
            feed != [] && ItemOf(feed[|feed| - 1]).score == moment && v.id < ItemOf(feed[|feed| - 1]).id
  {
    var items, head := ItemsOf(r.w.following, src), Head(r, src);
    TiedIsKept(r, created, src, moment);
    assert items[i] in items && items[j] in items && head[i] == items[i];
    assert items[i] in Kept(r) && items[j] in InReach(r);
    assert items[j] !in head by {
      forall k | 0 <= k < |head| ensures head[k] != items[j] { assert head[k] == items[k]; }
    }
    assert forall x :: x in Kept(r) ==> x in head && x in items && x.score == moment;
    assert Suffice(CutFrom(r), r.shown, items[j]);
    EndsAbove(r, created, items[j], moment);
  }

  lemma EndsAbove(r: Request, created: Id -> nat, v: HotItem, moment: int)
    requires Consistent(r.w, created) && r.shown > 0 && Suffice(CutFrom(r), r.shown, v)
    requires v !in CutFrom(r) && v.score == moment && forall x :: x in CutFrom(r) ==> x.score == moment
    ensures var feed := FeedFor(r);
            feed != [] && ItemOf(feed[|feed| - 1]).score == moment && v.id < ItemOf(feed[|feed| - 1]).id
  {
    FeedIsNewest(r, created);
    CutEndsAbove(CutFrom(r), FeedFor(r), r.shown, v, moment);
  }

  lemma CutEndsAbove(items: set<HotItem>, feed: seq<Shown>, n: nat, v: HotItem, moment: int)
    requires n > 0 && ShowsItems(feed, Take(Newest(items), n)) && Suffice(items, n, v)
    requires v !in items && v.score == moment && forall x :: x in items ==> x.score == moment
    ensures feed != [] && ItemOf(feed[|feed| - 1]).score == moment && v.id < ItemOf(feed[|feed| - 1]).id
  {
    var top := Take(Newest(items), n);
    TopIsAmong(items, n);
    CutReachesExactlyWhatSuffices(items, n, v);
    assert top[|top| - 1] in top;
  }

  predicate LeadsBehind(page: seq<Shown>, behind: (int, Id) -> bool) {
    page != [] && behind(page[|page| - 1].createdAt, page[|page| - 1].id)
  }

  /** What would have to lead on for ever does not hold all along a walk. */
  lemma {:induction false} NeverAlong(pages: (nat, int, Id) -> seq<Shown>, created: Id -> nat, good: (nat, int, Id) -> bool,
                                      behind: (int, Id) -> bool, k: nat, createdAt: nat, lastId: Id)
    requires PagesDescend(pages, created) && behind(createdAt, lastId)
    requires forall i: nat, c: int, l: Id :: behind(c, l) && good(i, c, l) ==> LeadsBehind(pages(i, c, l), behind)
    ensures !Along(pages, created, good, k, createdAt, lastId)
    decreases if lastId == 0 then 1 else 0, createdAt, lastId
  {
    var page := pages(k, createdAt, lastId);
    assert Descends(page, created, createdAt, lastId);
    if good(k, createdAt, lastId) {
      assert LeadsBehind(page, behind);
      var last := page[|page| - 1];
      assert lastId > 0 ==> Below(last, createdAt, lastId);
      NeverAlong(pages, created, good, behind, k + 1, last.createdAt, last.id);
    }
  }

  /** Cursors ahead of this video of the moment. */
  function AheadOf(v: HotItem, moment: int): (int, Id) -> bool {
    (createdAt: int, lastId: Id) => lastId > 0 ==> createdAt == moment && v.id < lastId
  }

  lemma NewerTailLeadsOn(r: Request, created: Id -> nat, src: Source, moment: int, i: nat, j: nat)
    requires OneMoment(r.w, r.user, created, src, moment) && r.shown > 0 && SufficesFor(r)
    requires var items := ItemsOf(r.w.following, src);
             i < r.shown + CANDIDATE_EXTRA <= j < |items| && items[i].id < items[j].id
             && AheadOf(items[j], moment)(r.createdAt, r.lastId)
    ensures LeadsBehind(FeedFor(r), AheadOf(ItemsOf(r.w.following, src)[j], moment))
  {
    NewerTailStaysAhead(r, created, src, moment, i, j);
  }

  lemma {:induction false} AlongAlways(pages: (nat, int, Id) -> seq<Shown>, created: Id -> nat, good: (nat, int, Id) -> bool,
                                       k: nat, createdAt: nat, lastId: Id)
    requires PagesDescend(pages, created) && forall i: nat, c: int, l: Id :: good(i, c, l)
    ensures Along(pages, created, good, k, createdAt, lastId)
    decreases if lastId == 0 then 1 else 0, createdAt, lastId
  {
    var page := pages(k, createdAt, lastId);
    assert Descends(page, created, createdAt, lastId);
    if page != [] {
      var last := page[|page| - 1];
      assert lastId > 0 ==> Below(last, createdAt, lastId);
      AlongAlways(pages, created, good, k + 1, last.createdAt, last.id);
    }
  }

  lemma OlderTailIsShown(w: World, user: Id, created: Id -> nat, src: Source, limit: nat, moment: int)
    requires OneMoment(w, user, created, src, moment) && limit > 0
             && TailIsOlder(ItemsOf(w.following, src), limit + CANDIDATE_EXTRA)
    ensures AlongWalk(w, user, created, limit, Sufficing(w, user, limit))
  {
    FeedDescends(_ => w, user, created, limit);
    forall k: nat, c: int, l: Id ensures Sufficing(w, user, limit)(k, c, l) {
      OlderTailSuffices(Request(w, user, limit, c, l), created, src, moment);
    }
    AlongAlways(Pages(w, user, limit), created, Sufficing(w, user, limit), 0, 0, 0);
  }

  lemma NewerTailIsLost(w: World, user: Id, created: Id -> nat, src: Source, limit: nat, moment: int, i: nat, j: nat)
    requires OneMoment(w, user, created, src, moment) && limit > 0 && PagesDescend(Pages(w, user, limit), created)
    requires var items := ItemsOf(w.following, src);
             i < limit + CANDIDATE_EXTRA <= j < |items| && items[i].id < items[j].id
    ensures !Along(Pages(w, user, limit), created, Sufficing(w, user, limit), 0, 0, 0)
  {
    var pages, ahead := Pages(w, user, limit), AheadOf(ItemsOf(w.following, src)[j], moment);
    forall k: nat, c: int, l: Id | ahead(c, l) && Sufficing(w, user, limit)(k, c, l)
      ensures LeadsBehind(pages(k, c, l), ahead)
    {
      NewerTailLeadsOn(Request(w, user, limit, c, l), created, src, moment, i, j);
    }
    NeverAlong(pages, created, Sufficing(w, user, limit), ahead, 0, 0, 0);
  }

  lemma SomeNewerTailIsLost(w: World, user: Id, created: Id -> nat, src: Source, limit: nat, moment: int)
    requires OneMoment(w, user, created, src, moment) && limit > 0
             && !TailIsOlder(ItemsOf(w.following, src), limit + CANDIDATE_EXTRA)
    ensures !AlongWalk(w, user, created, limit, Sufficing(w, user, limit))
  {
    var items, n := ItemsOf(w.following, src), limit + CANDIDATE_EXTRA;
    var i, j :| 0 <= i < n <= j < |items| && items[j].id >= items[i].id;
    FeedDescends(_ => w, user, created, limit);
    NewerTailIsLost(w, user, created, src, limit, moment, i, j);
  }

  /** The exact condition within one millisecond: a walk of page size `limit` shows everything if and only if every
      video that Redis lists at position limit + 20 or later is older than all the videos before that position. */
  lemma TiedWalkShowsEverythingExactlyWhenTailIsOlder(w: World, user: Id, created: Id -> nat, src: Source, limit: nat,
                                                      moment: int)
    requires OneMoment(w, user, created, src, moment) && limit > 0
    ensures Reach(w, user, limit) == Elems(ItemsOf(w.following, src))
    ensures ShowsAll(WalkOf(w, user, created, limit), Reach(w, user, limit)) <==>
              TailIsOlder(ItemsOf(w.following, src), limit + CANDIDATE_EXTRA)
  {
    TiedIsKept(Request(w, user, limit, 0, 0), created, src, moment);
    WalkShowsEverythingExactlyWhenSufficing(w, user, created, limit);
    if TailIsOlder(ItemsOf(w.following, src), limit + CANDIDATE_EXTRA) {
      OlderTailIsShown(w, user, created, src, limit, moment);
    } else {
      SomeNewerTailIsLost(w, user, created, src, limit, moment);
    }
  }
}
