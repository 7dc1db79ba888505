/** What a page of the follow feed skips for good, and exactly when it skips nothing. */
module FollowLoss {
  import opened Ranking
  import opened Text
  import opened SortedSet
  import opened FollowIndex
  import opened FollowPage
  import opened FollowFeed
  import opened FollowMiss

  // ------------------------------------------------------------------ what a page is the newest of

  /** One request for a page, and the world it finds. */
  datatype Request = Request(w: World, user: Id, shown: nat, createdAt: int, lastId: Id)

  function QueryFor(r: Request): Query { QueryOf(r.w, r.user, r.shown, r.createdAt, r.lastId) }

  ghost function FeedFor(r: Request): seq<Shown> { FeedPage(r.w, r.user, r.shown, r.createdAt, r.lastId) }

  predicate Out(w: World, id: Id) { id in w.rows && w.rows[id].published }

  function Keys(r: Request): seq<Source> { Sources(r.w.ix, QueryFor(r)) }

  /** What of a source is in view of the request, in the source's order. */
  function ViewOf(r: Request, src: Source): seq<HotItem> { InView(QueryFor(r), src) }

  /** The videos the index makes visible behind the cursor and that are out. */
  ghost function InReach(r: Request): set<HotItem> {
    set v | v in Visible(QueryFor(r), Sources(r.w.ix, QueryFor(r))) && Out(r.w, v.id)
  }

  /** What is left of the index's page when the rows are looked up. */
  ghost function Kept(r: Request): set<HotItem> {
    match Page(r.w.ix, QueryFor(r))
    case None => {}
    case Some(items) => set v | v in items && Out(r.w, v.id)
  }

  function ItemOf(v: Shown): HotItem { HotItem(v.id, v.createdAt) }

  function TableItems(r: Request): set<HotItem> { set v | v in TableRows(r.w, r.createdAt, r.lastId) :: ItemOf(v) }

  /** What the page is cut from: what is left of the index's page, or the table when nothing is. */
  ghost function CutFrom(r: Request): set<HotItem> { if Kept(r) != {} then Kept(r) else TableItems(r) }

  ghost predicate AllDated(items: set<HotItem>, created: Id -> nat) { forall v :: v in items ==> v.score == created(v.id) }

  lemma CutFromIsDated(r: Request, created: Id -> nat)
    requires Consistent(r.w, created)
    ensures AllDated(CutFrom(r), created)
  {
    var q := QueryFor(r);
    if Page(r.w.ix, q).Some? {
      PageIsSound(r.w.ix, q);
      forall v | v in Kept(r) ensures v.score == created(v.id) { VouchedIsDated(r.w, q, created, v); }
    }
  }

  lemma SeenIsDated(w: World, q: Query, created: Id -> nat, v: HotItem)
    requires Consistent(w, created) && v in Visible(q, Sources(w.ix, q))
    ensures v.score == created(v.id)
  {
    var sources := Sources(w.ix, q);
    var i :| 0 <= i < |sources| && v in Candidates(q, sources[i], AtMost(sources[i].entries, MaxScore(q)));
    CandidatesFrom(q, sources[i], AtMost(sources[i].entries, MaxScore(q)), v);
    var e :| e in AtMost(sources[i].entries, MaxScore(q)) && Candidate(q, sources[i], e) == Some(v);
    var author := ParseMember(e.member, sources[i].inbox, sources[i].owner).value.1;
    assert e in sources[i].entries && author in q.followed;
    VouchedIsDated(w, q, created, v);
  }

  /** These videos, in this order. */
  predicate ShowsItems(feed: seq<Shown>, top: seq<HotItem>) {
    |feed| == |top| && forall i :: 0 <= i < |top| ==> ItemOf(feed[i]) == top[i]
  }

  /** Videos in the order of the feed are their items in order. */
  lemma LatestIsNewest(s: seq<Shown>, items: set<HotItem>, n: nat)
    requires Ranked(Later, s) && forall v :: v in s ==> v.score == v.createdAt
    requires forall v :: v in s ==> ItemOf(v) in items
    requires forall x :: x in items ==> exists v :: v in s && ItemOf(v) == x
    ensures ShowsItems(Take(s, n), Take(Newest(items), n))
  {
    var t := seq(|s|, i requires 0 <= i < |s| => ItemOf(s[i]));
    forall i, j | 0 <= i < j < |t| ensures Newer(t[i], t[j]) { assert Later(s[i], s[j]) && s[i] in s && s[j] in s; }
    forall x | x in items ensures x in t {
      var v :| v in s && ItemOf(v) == x;
      var i :| 0 <= i < |s| && s[i] == v;
      assert t[i] == x;
    }
    forall x | x in t ensures x in items {
      var i :| 0 <= i < |t| && t[i] == x;
      assert s[i] in s;
    }
    assert Elems(t) == items;
    NewerIsTotal();
    RankedUnique(Newer, Newest(items), t);
  }

  lemma TableShows(r: Request, created: Id -> nat)
    requires Consistent(r.w, created)
    ensures ShowsItems(TablePage(r.w, r.shown, r.createdAt, r.lastId), Take(Newest(TableItems(r)), r.shown))
  {
    var s := Latest(TableRows(r.w, r.createdAt, r.lastId));
    assert forall v :: v in s <==> v in Elems(s);
    LatestIsNewest(s, TableItems(r), r.shown);
  }

  lemma KeptShows(r: Request, created: Id -> nat)
    requires Consistent(r.w, created) && Page(r.w.ix, QueryFor(r)).Some?
    ensures var s := Latest(Elems(Present(r.w.rows, Page(r.w.ix, QueryFor(r)).value)));
            ShowsItems(Take(s, r.shown), Take(Newest(Kept(r)), r.shown)) && (s == [] <==> Kept(r) == {})
  {
    var q := QueryFor(r);
    var items := Page(r.w.ix, q).value;
    var s := Latest(Elems(Present(r.w.rows, items)));
    assert forall v :: v in s <==> v in Elems(s);
    PageIsSound(r.w.ix, q);
    forall v | v in s ensures v.score == v.createdAt && ItemOf(v) in Kept(r) {
      VouchedIsDated(r.w, q, created, HotItem(v.id, v.score));
    }
    forall x | x in Kept(r) ensures exists v :: v in s && ItemOf(v) == x {
      PresentSubset(r.w.rows, items, x);
      VouchedIsDated(r.w, q, created, x);
      assert ItemOf(Shown(x.score, r.w.rows[x.id].createdAt, x.id)) == x;
    }
    LatestIsNewest(s, Kept(r), r.shown);
    if s != [] { assert s[0] in s; }
  }

  lemma NoneFollowedNothingToCut(r: Request)
    requires r.w.following == []
    ensures CutFrom(r) == {}
  {
    if Page(r.w.ix, QueryFor(r)).Some? {
      PageIsSound(r.w.ix, QueryFor(r));
    }
  }

  /** Whatever the index holds and whichever rows are gone, a page is the newest of what it is cut from. */
  lemma FeedIsNewest(r: Request, created: Id -> nat)
    requires Consistent(r.w, created)
    ensures ShowsItems(FeedFor(r), Take(Newest(CutFrom(r)), r.shown))
  {
    if r.w.following == [] {
      NoneFollowedNothingToCut(r);
    } else {
      TableShows(r, created);
      if Page(r.w.ix, QueryFor(r)).Some? { KeptShows(r, created); }
    }
  }

  // ------------------------------------------------------------------ exactly when a page skips nothing

  predicate IsShown(feed: seq<Shown>, id: Id) { exists i :: 0 <= i < |feed| && feed[i].id == id }

  /** Behind the cursor that the page leads to. */
  predicate StillAhead(feed: seq<Shown>, v: HotItem) { feed != [] && Newer(ItemOf(feed[|feed| - 1]), v) }

  /** Each of these is on the page, or still ahead. */
  ghost predicate PassesNone(feed: seq<Shown>, items: set<HotItem>) {
    forall v :: v in items ==> IsShown(feed, v.id) || StillAhead(feed, v)
  }

  /** Everything in reach is shown or still ahead. */
  ghost predicate FeedMissesNothing(r: Request) { PassesNone(FeedFor(r), InReach(r)) }

  lemma FeedAsTop(feed: seq<Shown>, top: seq<HotItem>, created: Id -> nat, v: HotItem)
    requires ShowsItems(feed, top) && v.score == created(v.id) && forall x :: x in top ==> x.score == created(x.id)
    ensures IsShown(feed, v.id) || StillAhead(feed, v) <==> Reached(top, v)
  {
    if IsShown(feed, v.id) {
      var i :| 0 <= i < |feed| && feed[i].id == v.id;
      assert top[i] in top && top[i] == v;
    }
    if v in top {
      var i :| 0 <= i < |top| && top[i] == v;
      assert feed[i].id == v.id;
    }
  }

  lemma TopIsAmong(items: set<HotItem>, n: nat)
    ensures forall x :: x in Take(Newest(items), n) ==> x in items
  {
    forall x | x in Take(Newest(items), n) ensures x in items {
      assert x in Elems(Newest(items));
    }
  }

  /** A page shows a video or stays ahead of it if and only if the video is among what the page is cut from, or
      enough of that is newer: a pageful, or all there is. */
  lemma FeedReachesExactlyWhatSuffices(r: Request, created: Id -> nat, v: HotItem)
    requires Consistent(r.w, created) && r.shown > 0 && v.score == created(v.id)
    ensures IsShown(FeedFor(r), v.id) || StillAhead(FeedFor(r), v) <==> Suffice(CutFrom(r), r.shown, v)
  {
    assert ShowsItems(FeedFor(r), Take(Newest(CutFrom(r)), r.shown)) by { FeedIsNewest(r, created); }
    assert AllDated(CutFrom(r), created) by { CutFromIsDated(r, created); }
    TopIsAmong(CutFrom(r), r.shown);
    FeedAsTop(FeedFor(r), Take(Newest(CutFrom(r)), r.shown), created, v);
    CutReachesExactlyWhatSuffices(CutFrom(r), r.shown, v);
  }

  /** Of what the page is cut from, enough is newer than each video in reach that is not part of it. */
  ghost predicate SufficesFor(r: Request) { forall v :: v in InReach(r) ==> Suffice(CutFrom(r), r.shown, v) }

  /** The exact condition for any page: of any number of sources, behind any cursor, with whatever the filters and
      the rows leave of what was fetched, and from the table when they leave nothing. */
  lemma FeedMissesNothingExactlyWhenSuffices(r: Request, created: Id -> nat)
    requires Consistent(r.w, created) && r.shown > 0
    ensures FeedMissesNothing(r) <==> SufficesFor(r)
  {
    forall v | v in InReach(r)
      ensures IsShown(FeedFor(r), v.id) || StillAhead(FeedFor(r), v) <==> Suffice(CutFrom(r), r.shown, v)
    {
      SeenIsDated(r.w, QueryFor(r), created, v);
      FeedReachesExactlyWhatSuffices(r, created, v);
    }
  }

  // ------------------------------------------------------------------ with sources in order

  /** Out and in view, and not among what the page is cut from. */
  ghost predicate LeftOut(r: Request, v: HotItem) { Out(r.w, v.id) && v !in Kept(r) }

  /** The first item of a source that was left out because it was not fetched. */
  ghost predicate FirstLeftOut(r: Request, src: Source, j: nat)
    requires QueryFor(r).limit > 0
  {
    var all, n := ViewOf(r, src), KeptOf(QueryFor(r), src);
    n <= j < |all| && LeftOut(r, all[j]) && forall i :: n <= i < j ==> !LeftOut(r, all[i])
  }

  /** At least a pageful of what the page is cut from, or all of it, is newer. */
  ghost predicate EnoughNewer(r: Request, v: HotItem) { |NewerIn(Kept(r), v)| >= Least(r.shown, |Kept(r)|) }

  ghost predicate FirstLeftOutsAreOlder(r: Request)
    requires QueryFor(r).limit > 0
  {
    forall src, j: nat :: src in Keys(r) && FirstLeftOut(r, src, j) ==> EnoughNewer(r, ViewOf(r, src)[j])
  }

  ghost predicate AllAligned(r: Request) { forall src :: src in Keys(r) ==> Aligned(QueryFor(r), src) }

  /** What was fetched and cut again is older than all that was kept. */
  lemma CutIsOlder(ix: Index, q: Query, v: HotItem)
    requires Page(ix, q).Some? && v in Fetched(q, Sources(ix, q)) && OneScorePerVideo(Visible(q, Sources(ix, q)))
    ensures v in Page(ix, q).value || forall x :: x in Page(ix, q).value ==> Newer(x, v)
  {
    FetchedIsVisible(q, Sources(ix, q));
    DedupKeeps(Fetched(q, Sources(ix, q)), Visible(q, Sources(ix, q)), v);
    var all := Newest(Elems(Dedup(Fetched(q, Sources(ix, q)))));
    assert v in Elems(all);
    var i :| 0 <= i < |all| && all[i] == v;
    if i < q.limit { assert Page(ix, q).value[i] == v; }
  }

  lemma SeenHasOneScore(w: World, q: Query, created: Id -> nat)
    requires Consistent(w, created)
    ensures OneScorePerVideo(Visible(q, Sources(w.ix, q)))
  {
    forall a, b | SameVideo(a, b) && a in Visible(q, Sources(w.ix, q)) && b in Visible(q, Sources(w.ix, q))
      ensures a == b
    {
      SeenIsDated(w, q, created, a);
      SeenIsDated(w, q, created, b);
    }
  }

  lemma NewerThanNewer(items: set<HotItem>, a: HotItem, b: HotItem)
    requires a == b || Newer(a, b)
    ensures |NewerIn(items, a)| <= |NewerIn(items, b)|
  {
    SubsetCard(NewerIn(items, a), NewerIn(items, b));
  }

  lemma FirstOfLeftOuts(r: Request, src: Source, k: nat) returns (j: nat)
    requires QueryFor(r).limit > 0 && KeptOf(QueryFor(r), src) <= k < |ViewOf(r, src)|
    requires LeftOut(r, ViewOf(r, src)[k])
    ensures j <= k && FirstLeftOut(r, src, j)
  {
    var all := ViewOf(r, src);
    j := KeptOf(QueryFor(r), src);
    while !LeftOut(r, all[j])
      invariant KeptOf(QueryFor(r), src) <= j <= k && forall i :: KeptOf(QueryFor(r), src) <= i < j ==>
        !LeftOut(r, all[i])
      decreases k - j
    {
      j := j + 1;
    }
  }

  lemma FetchedLeftOutIsOlder(r: Request, created: Id -> nat, src: Source, k: nat)
    requires Consistent(r.w, created) && Page(r.w.ix, QueryFor(r)).Some? && QueryFor(r).limit > 0
    requires src in Keys(r) && k < |ViewOf(r, src)| && k < KeptOf(QueryFor(r), src) && LeftOut(r, ViewOf(r, src)[k])
    ensures EnoughNewer(r, ViewOf(r, src)[k])
  {
    var q, v := QueryFor(r), ViewOf(r, src)[k];
    assert v in Fetched(q, Keys(r)) by {
      KeptIsInView(q, src);
      var i :| 0 <= i < |Keys(r)| && Keys(r)[i] == src;
      FetchedIncludes(q, Keys(r), i, v);
    }
    SeenHasOneScore(r.w, q, created);
    CutIsOlder(r.w.ix, q, v);
    assert NewerIn(Kept(r), v) == Kept(r);
  }

  lemma UnfetchedLeftOutIsOlder(r: Request, src: Source, k: nat)
    requires QueryFor(r).limit > 0 && KeptOf(QueryFor(r), src) <= k < |ViewOf(r, src)|
    requires src in Keys(r) && Aligned(QueryFor(r), src) && FirstLeftOutsAreOlder(r) && LeftOut(r, ViewOf(r, src)[k])
    ensures EnoughNewer(r, ViewOf(r, src)[k])
  {
    var all := ViewOf(r, src);
    var j := FirstOfLeftOuts(r, src, k);
    assert EnoughNewer(r, all[j]);
    NewerThanNewer(Kept(r), all[j], all[k]);
  }

  /** A left-out item of a source was fetched and cut, or stands behind the first that was not fetched. */
  lemma LeftOutIsOlder(r: Request, created: Id -> nat, src: Source, k: nat)
    requires Consistent(r.w, created) && Kept(r) != {} && QueryFor(r).limit > 0
    requires src in Keys(r) && Aligned(QueryFor(r), src) && k < |ViewOf(r, src)|
    requires FirstLeftOutsAreOlder(r) && LeftOut(r, ViewOf(r, src)[k])
    ensures EnoughNewer(r, ViewOf(r, src)[k])
  {
    if k < KeptOf(QueryFor(r), src) {
      FetchedLeftOutIsOlder(r, created, src, k);
    } else {
      UnfetchedLeftOutIsOlder(r, src, k);
    }
  }

  lemma FirstLeftOutIsOlder(r: Request, src: Source, j: nat)
    requires QueryFor(r).limit > 0 && Kept(r) != {} && SufficesFor(r) && src in Keys(r) && FirstLeftOut(r, src, j)
    ensures EnoughNewer(r, ViewOf(r, src)[j])
  {
    var i :| 0 <= i < |Keys(r)| && Keys(r)[i] == src;
    VisibleFrom(QueryFor(r), Keys(r), i, ViewOf(r, src)[j]);
    assert ViewOf(r, src)[j] in InReach(r);
  }

  lemma OlderLeftOutsSuffice(r: Request, created: Id -> nat, v: HotItem)
    requires Consistent(r.w, created) && Kept(r) != {} && AllAligned(r) && QueryFor(r).limit > 0
    requires FirstLeftOutsAreOlder(r) && v in InReach(r)
    ensures Suffice(CutFrom(r), r.shown, v)
  {
    var i :| 0 <= i < |Keys(r)| && v in ViewOf(r, Keys(r)[i]);
    var k :| 0 <= k < |ViewOf(r, Keys(r)[i])| && ViewOf(r, Keys(r)[i])[k] == v;
    if v !in Kept(r) { LeftOutIsOlder(r, created, Keys(r)[i], k); }
  }

  /** The exact condition for sources in (score, ID) order, any number of them, while anything is left of the
      index's page: the page goes past nothing if and only if, of what is left, a pageful or all is newer than the
      first video of each source that is out and was not fetched. */
  lemma FeedMissesNothingExactlyWhenFirstLeftOutsAreOlder(r: Request, created: Id -> nat)
    requires Consistent(r.w, created) && r.shown > 0 && Kept(r) != {} && AllAligned(r)
    ensures QueryFor(r).limit > 0
    ensures FeedMissesNothing(r) <==> FirstLeftOutsAreOlder(r)
  {
    FeedMissesNothingExactlyWhenSuffices(r, created);
    if FeedMissesNothing(r) {
      forall src, j: nat | src in Keys(r) && FirstLeftOut(r, src, j) ensures EnoughNewer(r, ViewOf(r, src)[j]) {
        FirstLeftOutIsOlder(r, src, j);
      }
    }
    if FirstLeftOutsAreOlder(r) {
      forall v | v in InReach(r) ensures Suffice(CutFrom(r), r.shown, v) { OlderLeftOutsSuffice(r, created, v); }
    }
  }

  // ------------------------------------------------------------------ with one source

  ghost predicate AllOut(w: World, items: seq<HotItem>) {
    forall item {:trigger Out(w, item.id)} :: item in items ==> Out(w, item.id)
  }

  /** One source holds all there is for this reader, each with its row out. */
  ghost predicate OneSource(w: World, user: Id, created: Id -> nat, src: Source) {
    && Consistent(w, created) && w.following != [] && user != 0
    && Alone(w.ix, Query(user, w.following, 0, 0, 0), src) && ZSet(src.entries)
    && AllKept(w.following, src) && DistinctIds(ItemsOf(w.following, src))
    && AllOut(w, ItemsOf(w.following, src))
  }

  /** Of a page of that source nothing is lost but what the cursor leaves out. */
  lemma OneSourceIsKept(r: Request, created: Id -> nat, src: Source)
    requires OneSource(r.w, r.user, created, src) && r.shown > 0
    ensures QueryFor(r).limit > 0 && KeptOf(QueryFor(r), src) <= |ViewOf(r, src)|
    ensures Kept(r) == Elems(ViewOf(r, src)[..KeptOf(QueryFor(r), src)])
    ensures InReach(r) == Elems(ViewOf(r, src))
  {
    var q := QueryFor(r);
    AloneBehindACursor(r.w.ix, q, src);
    InViewIsHeld(q, src);
    FetchedAlone(r.w.ix, q, src);
    PageAlone(r.w.ix, q, src);
    KeptIsInView(QueryFor(r), src);
    assert forall v :: v in ViewOf(r, src) ==> Out(r.w, v.id);
    if Page(r.w.ix, q).Some? {
      assert forall v :: v in Page(r.w.ix, q).value <==> v in Elems(Page(r.w.ix, q).value);
    }
  }

  /** The exact condition there, behind any cursor, while it leaves anything of what is fetched. */
  lemma OneSourceMissesNothingExactlyWhenFewOlder(r: Request, created: Id -> nat, src: Source)
    requires OneSource(r.w, r.user, created, src) && r.shown > 0
    ensures QueryFor(r).limit > 0 && KeptOf(QueryFor(r), src) <= |ViewOf(r, src)|
    ensures KeptOf(QueryFor(r), src) > 0 ==>
      (FeedMissesNothing(r) <==>
         forall j :: KeptOf(QueryFor(r), src) <= j < |ViewOf(r, src)| ==>
           FewOlder(ViewOf(r, src), KeptOf(QueryFor(r), src), r.shown, j))
  {
    OneSourceIsKept(r, created, src);
    FeedMissesNothingExactlyWhenSuffices(r, created);
    var all, n := ViewOf(r, src), KeptOf(QueryFor(r), src);
    if n > 0 {
      InViewIsHeld(QueryFor(r), src);
      assert all[..n][0] in Kept(r);
      ListIsReachedExactlyWhenFewOlder(all, n, r.shown);
    }
  }

  /** Item j stands behind more than 20 older ones. */
  predicate Overtaken(items: seq<HotItem>, j: nat) {
    j < |items| && |OlderBefore(items, j, items[j])| > CANDIDATE_EXTRA
  }

  lemma OvertakenByMany(items: seq<HotItem>, j: nat)
    requires Overtaken(items, j)
    ensures j > CANDIDATE_EXTRA
  {
    OlderGrows(items, j, j, items[j]);
  }

  /** Gone past, by create time. */
  predicate PassedBy(feed: seq<Shown>, created: Id -> nat, v: Id) {
    feed != [] && !IsShown(feed, v) && Newer(HotItem(v, created(v)), ItemOf(feed[|feed| - 1]))
  }

  /** What a page does not reach it passes by. */
  lemma NotReachedIsPassedBy(r: Request, created: Id -> nat, v: HotItem)
    requires Consistent(r.w, created) && r.shown > 0 && v.score == created(v.id)
    requires CutFrom(r) != {} && !Suffice(CutFrom(r), r.shown, v)
    ensures PassedBy(FeedFor(r), created, v.id)
  {
    FeedReachesExactlyWhatSuffices(r, created, v);
    FeedIsNewest(r, created);
    var feed := FeedFor(r);
    assert feed != [] by {
      var x :| x in CutFrom(r);
      assert x in Elems(Newest(CutFrom(r)));
    }
    assert ItemOf(feed[|feed| - 1]).score == created(feed[|feed| - 1].id) by {
      PageDescends(r.w, r.user, created, r.shown, r.createdAt, r.lastId);
    }
    NewerIsTotal();
    assert ItemOf(feed[|feed| - 1]).id != v.id;
  }

  lemma OvertakenIsNotReached(r: Request, created: Id -> nat, src: Source, j: nat)
    requires OneSource(r.w, r.user, created, src) && Overtaken(ItemsOf(r.w.following, src), j)
    requires r.shown + CANDIDATE_EXTRA == j && r.shown > 0 && r.lastId == 0
    ensures var v := ItemsOf(r.w.following, src)[j];
            v in InReach(r) && CutFrom(r) != {} && !Suffice(CutFrom(r), r.shown, v)
  {
    var items := ItemsOf(r.w.following, src);
    FetchOfFirst(QueryFor(r), src);
    OneSourceIsKept(r, created, src);
    LeftOutExactlyWhenFewOlder(items, j, r.shown, j);
    assert items[..j][0] in Kept(r);
    assert items[j] in Elems(items);
  }

  lemma UnreachedIsPassedBy(r: Request, created: Id -> nat, v: HotItem)
    requires Consistent(r.w, created) && r.shown > 0 && v in InReach(r)
    requires CutFrom(r) != {} && !Suffice(CutFrom(r), r.shown, v)
    ensures PassedBy(FeedFor(r), created, v.id)
  {
    SeenIsDated(r.w, QueryFor(r), created, v);
    NotReachedIsPassedBy(r, created, v);
  }

  /** The first page of size j - 20 passes by an item j that is overtaken. */
  lemma OvertakenIsPassedBy(r: Request, created: Id -> nat, src: Source, j: nat)
    requires OneSource(r.w, r.user, created, src) && Overtaken(ItemsOf(r.w.following, src), j)
    requires r.shown == j - CANDIDATE_EXTRA && r.lastId == 0
    ensures PassedBy(FeedFor(r), created, ItemsOf(r.w.following, src)[j].id)
  {
    OvertakenByMany(ItemsOf(r.w.following, src), j);
    OvertakenIsNotReached(r, created, src, j);
    UnreachedIsPassedBy(r, created, ItemsOf(r.w.following, src)[j]);
  }
}
