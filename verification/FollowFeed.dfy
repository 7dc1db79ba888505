/** The follow feed as a reader walks it: pages from the index, pages from the video table when the index has
    nothing, and a cursor of (create time in ms, video ID) between them. */
module FollowFeed {
  import opened Ranking
  import opened Text
  import opened SortedSet
  import opened FollowIndex
  import opened FollowPage
  import FeedRepo

  const CANDIDATE_EXTRA := 20
  const BACKFILL_LIMIT := 20

  /** A row of the video table, as far as the feed looks at it. */
  datatype Row = Row(author: Id, createdAt: int, published: bool)

  /** A video on a page: the score it was ordered by, its create time and its ID. */
  datatype Shown = Shown(score: int, createdAt: int, id: Id)

  /** What one page is made from. Everything may have changed by the next page. */
  datatype World = World(ix: Index, rows: map<Id, Row>, following: seq<Id>)

  /** The order of orderVideos, and of "created_at desc, id desc" when scores are create times. */
  predicate Later(a: Shown, b: Shown) {
    || a.score > b.score
    || (a.score == b.score && a.createdAt > b.createdAt)
    || (a.score == b.score && a.createdAt == b.createdAt && a.id > b.id)
  }

  lemma LaterIsTotal()
    ensures StrictTotal(Later)
  {
  }

  ghost function Latest(videos: set<Shown>): (r: seq<Shown>)
    ensures Ranked(Later, r) && Elems(r) == videos
  {
    LaterIsTotal();
    Rank(Later, videos)
  }

  /** ListByAuthorsBefore: published videos of these authors below the cursor, in both fields. */
  function TableRows(w: World, lastCreatedAt: int, lastId: Id): set<Shown> {
    set id | id in w.rows && w.rows[id].published && w.rows[id].author in w.following
             && (lastId > 0 ==> w.rows[id].createdAt <= lastCreatedAt && id < lastId)
      :: Shown(w.rows[id].createdAt, w.rows[id].createdAt, id)
  }

  ghost function TablePage(w: World, limit: nat, lastCreatedAt: int, lastId: Id): seq<Shown> {
    Take(Latest(TableRows(w, lastCreatedAt, lastId)), limit)
  }

  function QueryOf(w: World, user: Id, limit: nat, lastCreatedAt: int, lastId: Id): Query {
    Query(user, w.following, if lastId > 0 then lastCreatedAt else 0, lastId, limit + CANDIDATE_EXTRA)
  }

  /** The rows behind index items that are still published, in the items' order. */
  function Present(rows: map<Id, Row>, items: seq<HotItem>): (r: seq<Shown>)
    ensures |r| <= |items|
    ensures forall v :: v in r ==> v.id in rows && rows[v.id].published && v.createdAt == rows[v.id].createdAt
                                   && HotItem(v.id, v.score) in items
  {
    if items == [] then []
    else
      var item := items[|items| - 1];
      var before := Present(rows, items[..|items| - 1]);
      if item.id in rows && rows[item.id].published
      then before + [Shown(item.score, rows[item.id].createdAt, item.id)] else before
  }

  /** GetFollowFeedVideos. The next cursor is the create time and ID of the page's last video. */
  ghost function FeedPage(w: World, user: Id, limit: nat, lastCreatedAt: int, lastId: Id): seq<Shown> {
    if w.following == [] then []
    else
      match Page(w.ix, QueryOf(w, user, limit, lastCreatedAt, lastId))
      case None => TablePage(w, limit, lastCreatedAt, lastId)
      case Some(items) =>
        var ordered := Latest(Elems(Present(w.rows, items)));
        if ordered == [] then TablePage(w, limit, lastCreatedAt, lastId) else Take(ordered, limit)
  }

  // ------------------------------------------------------------------ every page moves down

  /** The index scores videos by the create time of their rows, which never changes; rows have positive IDs. */
  ghost predicate Consistent(w: World, created: Id -> nat) {
    && (forall id :: id in w.rows ==> w.rows[id].createdAt == created(id) && id > 0)
    && (forall u, e :: u in w.ix.inboxes && e in w.ix.inboxes[u] ==> Dated(e, true, 0, created))
    && (forall a, e :: a in w.ix.outboxes && e in w.ix.outboxes[a] ==> Dated(e, false, a, created))
  }

  ghost predicate Dated(e: Entry, inbox: bool, owner: Id, created: Id -> nat) {
    var parsed := ParseMember(e.member, inbox, owner);
    parsed.Some? ==> e.score == created(parsed.value.0)
  }

  predicate Below(v: Shown, createdAt: int, id: Id) {
    v.createdAt < createdAt || (v.createdAt == createdAt && v.id < id)
  }

  /** Descending in (create time, ID), all dated, all below the cursor if there is one. */
  ghost predicate Descends(page: seq<Shown>, created: Id -> nat, lastCreatedAt: int, lastId: Id) {
    && (forall i :: 0 <= i < |page| ==> page[i].id > 0 && page[i].createdAt == created(page[i].id))
    && (forall i :: 0 <= i < |page| && lastId > 0 ==> Below(page[i], lastCreatedAt, lastId))
    && (forall i, j {:trigger Below(page[j], page[i].createdAt, page[i].id)} ::
          0 <= i < j < |page| ==> Below(page[j], page[i].createdAt, page[i].id))
  }

  lemma DescendsTake(s: seq<Shown>, n: nat, created: Id -> nat, lastCreatedAt: int, lastId: Id)
    requires Ranked(Later, s)
    requires forall v :: v in s ==> v.id > 0 && v.score == v.createdAt == created(v.id)
    requires forall v :: v in s && lastId > 0 ==> Below(v, lastCreatedAt, lastId)
    ensures Descends(Take(s, n), created, lastCreatedAt, lastId)
  {
    var page := Take(s, n);
    forall i | 0 <= i < |page| ensures page[i] in s { assert page[i] == s[i]; }
    forall i, j | 0 <= i < j < |page| ensures Below(page[j], page[i].createdAt, page[i].id) {
      assert page[i] in s && page[j] in s && Later(s[i], s[j]);
    }
  }

  lemma {:induction false} OutboxesComeFromIndex(w: World, q: Query, authors: seq<Id>, i: nat)
    requires i < |Outboxes(w.ix, q, authors)|
    ensures var src := Outboxes(w.ix, q, authors)[i];
            !src.inbox && src.owner in w.ix.outboxes && src.entries == w.ix.outboxes[src.owner]
  {
    var n := |authors| - 1;
    if i < |Outboxes(w.ix, q, authors[..n])| {
      OutboxesComeFromIndex(w, q, authors[..n], i);
    }
  }

  lemma VouchedIsDated(w: World, q: Query, created: Id -> nat, item: HotItem)
    requires Consistent(w, created) && Vouched(q, Sources(w.ix, q), item)
    ensures item.score == created(item.id)
  {
    var sources := Sources(w.ix, q);
    var i, e, author :| 0 <= i < |sources| && e in sources[i].entries && e.score == item.score
      && ParseMember(e.member, sources[i].inbox, sources[i].owner) == Some((item.id, author)) && author in q.followed;
    if i == 0 {
      assert Dated(e, true, 0, created);
    } else {
      OutboxesComeFromIndex(w, q, q.followed, i - 1);
      assert Dated(e, false, sources[i].owner, created);
    }
  }

  lemma TablePageDescends(w: World, created: Id -> nat, limit: nat, lastCreatedAt: int, lastId: Id)
    requires Consistent(w, created)
    ensures Descends(TablePage(w, limit, lastCreatedAt, lastId), created, lastCreatedAt, lastId)
  {
    var s := Latest(TableRows(w, lastCreatedAt, lastId));
    forall v | v in s
      ensures v.id > 0 && v.score == v.createdAt == created(v.id)
      ensures lastId > 0 ==> Below(v, lastCreatedAt, lastId)
    {
      assert v in Elems(s);
    }
    DescendsTake(s, limit, created, lastCreatedAt, lastId);
  }

  lemma IndexPageDescends(w: World, user: Id, created: Id -> nat, limit: nat, lastCreatedAt: int, lastId: Id)
    requires Consistent(w, created) && Page(w.ix, QueryOf(w, user, limit, lastCreatedAt, lastId)).Some?
    ensures var items := Page(w.ix, QueryOf(w, user, limit, lastCreatedAt, lastId)).value;
            Descends(Take(Latest(Elems(Present(w.rows, items))), limit), created, lastCreatedAt, lastId)
  {
    var q := QueryOf(w, user, limit, lastCreatedAt, lastId);
    var items := Page(w.ix, q).value;
    PageIsSound(w.ix, q);
    var s := Latest(Elems(Present(w.rows, items)));
    forall v | v in s
      ensures v.id > 0 && v.score == v.createdAt == created(v.id)
      ensures lastId > 0 ==> Below(v, lastCreatedAt, lastId)
    {
      assert v in Elems(s);
      var item := HotItem(v.id, v.score);
      assert BelowCursor(q, item) && Vouched(q, Sources(w.ix, q), item);
      VouchedIsDated(w, q, created, item);
    }
    DescendsTake(s, limit, created, lastCreatedAt, lastId);
  }

  /** Each page, from the index or from the table, is descending in (create time, ID) and strictly below the
      cursor it was asked with. */
  lemma PageDescends(w: World, user: Id, created: Id -> nat, limit: nat, lastCreatedAt: int, lastId: Id)
    requires Consistent(w, created)
    ensures Descends(FeedPage(w, user, limit, lastCreatedAt, lastId), created, lastCreatedAt, lastId)
  {
    if w.following != [] {
      TablePageDescends(w, created, limit, lastCreatedAt, lastId);
      if Page(w.ix, QueryOf(w, user, limit, lastCreatedAt, lastId)).Some? {
        IndexPageDescends(w, user, created, limit, lastCreatedAt, lastId);
      }
    }
  }

  // ------------------------------------------------------------------ what a page may show

  /** The index has nothing to serve, or nothing that is still out. */
  ghost predicate FromTable(w: World, user: Id, limit: nat, lastCreatedAt: int, lastId: Id) {
    match Page(w.ix, QueryOf(w, user, limit, lastCreatedAt, lastId))
    case None => true
    case Some(items) => forall item :: item in items ==> !(item.id in w.rows && w.rows[item.id].published)
  }

  /** Every video on a page has a published row, of which the page shows the create time. */
  lemma PageShowsPublishedRows(w: World, user: Id, limit: nat, lastCreatedAt: int, lastId: Id, v: Shown)
    requires v in FeedPage(w, user, limit, lastCreatedAt, lastId)
    ensures v.id in w.rows && w.rows[v.id].published && v.createdAt == w.rows[v.id].createdAt
    ensures w.following != []
  {
    var table := Latest(TableRows(w, lastCreatedAt, lastId));
    if FromTable(w, user, limit, lastCreatedAt, lastId) {
      NothingPresent(w, user, limit, lastCreatedAt, lastId);
      assert v in Elems(table);
    } else {
      SomethingPresent(w, user, limit, lastCreatedAt, lastId);
      assert v in Elems(Latest(Elems(Present(w.rows, Page(w.ix, QueryOf(w, user, limit, lastCreatedAt, lastId)).value))));
    }
  }

  lemma NothingPresent(w: World, user: Id, limit: nat, lastCreatedAt: int, lastId: Id)
    requires FromTable(w, user, limit, lastCreatedAt, lastId)
    ensures w.following != [] ==> FeedPage(w, user, limit, lastCreatedAt, lastId) == TablePage(w, limit, lastCreatedAt, lastId)
  {
    if Page(w.ix, QueryOf(w, user, limit, lastCreatedAt, lastId)).Some? {
      PresentNone(w.rows, Page(w.ix, QueryOf(w, user, limit, lastCreatedAt, lastId)).value);
      LaterIsTotal();
      DistinctCard(Later, Latest(Elems([])));
      assert Elems<Shown>([]) == {};
    }
  }

  lemma {:induction false} PresentNone(rows: map<Id, Row>, items: seq<HotItem>)
    requires forall item :: item in items ==> !(item.id in rows && rows[item.id].published)
    ensures Present(rows, items) == []
  {
    if items != [] {
      PresentNone(rows, items[..|items| - 1]);
    }
  }

  lemma SomethingPresent(w: World, user: Id, limit: nat, lastCreatedAt: int, lastId: Id)
    requires !FromTable(w, user, limit, lastCreatedAt, lastId)
    ensures w.following != [] ==>
              FeedPage(w, user, limit, lastCreatedAt, lastId) ==
                Take(Latest(Elems(Present(w.rows, Page(w.ix, QueryOf(w, user, limit, lastCreatedAt, lastId)).value))), limit)
  {
    var items := Page(w.ix, QueryOf(w, user, limit, lastCreatedAt, lastId)).value;
    var item :| item in items && item.id in w.rows && w.rows[item.id].published;
    PresentSubset(w.rows, items, item);
    assert Elems(Latest(Elems(Present(w.rows, items)))) != {};
  }

  /** What this author list, page size and cursor ask of the table: published videos of these authors, at or before
      the cursor's time and with a lower ID, latest first and at most `limit`, and no later one left out. */
  ghost predicate ServesTable(page: seq<Shown>, w: World, limit: nat, lastCreatedAt: int, lastId: Id) {
    && |page| <= limit
    && (forall i, j :: 0 <= i < j < |page| ==>
          page[i].createdAt > page[j].createdAt || (page[i].createdAt == page[j].createdAt && page[i].id > page[j].id))
    && (forall v :: v in page ==>
          && v.id in w.rows && w.rows[v.id].published && w.rows[v.id].author in w.following
          && v.score == v.createdAt == w.rows[v.id].createdAt
          && (lastId > 0 ==> v.createdAt <= lastCreatedAt && v.id < lastId))
    && (forall id :: id in w.rows && w.rows[id].published && w.rows[id].author in w.following
                     && (lastId > 0 ==> w.rows[id].createdAt <= lastCreatedAt && id < lastId) ==>
          || (exists v :: v in page && v.id == id)
          || (|page| == limit && forall v :: v in page ==>
                v.createdAt > w.rows[id].createdAt || (v.createdAt == w.rows[id].createdAt && v.id > id)))
  }

  lemma TablePageServes(w: World, limit: nat, lastCreatedAt: int, lastId: Id)
    ensures ServesTable(TablePage(w, limit, lastCreatedAt, lastId), w, limit, lastCreatedAt, lastId)
  {
    var all, page := Latest(TableRows(w, lastCreatedAt, lastId)), TablePage(w, limit, lastCreatedAt, lastId);
    assert forall v :: v in all <==> v in Elems(all);
    forall v | v in page ensures v in all {}
    forall i, j | 0 <= i < j < |page|
      ensures page[i].createdAt > page[j].createdAt || (page[i].createdAt == page[j].createdAt && page[i].id > page[j].id)
    {
      assert Later(all[i], all[j]) && page[i] in page && page[j] in page;
    }
    forall id | id in w.rows && w.rows[id].published && w.rows[id].author in w.following
                && (lastId > 0 ==> w.rows[id].createdAt <= lastCreatedAt && id < lastId)
      ensures || (exists v :: v in page && v.id == id)
              || (|page| == limit && forall v :: v in page ==>
                    v.createdAt > w.rows[id].createdAt || (v.createdAt == w.rows[id].createdAt && v.id > id))
    {
      LeftOffTheTable(w, limit, lastCreatedAt, lastId, id);
    }
  }

  lemma LeftOffTheTable(w: World, limit: nat, lastCreatedAt: int, lastId: Id, id: Id)
    requires id in w.rows && w.rows[id].published && w.rows[id].author in w.following
    requires lastId > 0 ==> w.rows[id].createdAt <= lastCreatedAt && id < lastId
    ensures var page := TablePage(w, limit, lastCreatedAt, lastId);
            || (exists v :: v in page && v.id == id)
            || (|page| == limit && forall v :: v in page ==>
                  v.createdAt > w.rows[id].createdAt || (v.createdAt == w.rows[id].createdAt && v.id > id))
  {
    var all, page := Latest(TableRows(w, lastCreatedAt, lastId)), TablePage(w, limit, lastCreatedAt, lastId);
    var row := Shown(w.rows[id].createdAt, w.rows[id].createdAt, id);
    assert row in Elems(all);
    var k :| 0 <= k < |all| && all[k] == row;
    if k < limit {
      assert page[k] == row && row in page;
    } else {
      forall v | v in page
        ensures v.createdAt > w.rows[id].createdAt || (v.createdAt == w.rows[id].createdAt && v.id > id)
      {
        var i :| 0 <= i < |page| && page[i] == v;
        assert Later(all[i], all[k]) && all[i] in Elems(all);
      }
    }
  }

  /** And when it is served from the table, a page is exactly that. */
  lemma PageFromTableServes(w: World, user: Id, limit: nat, lastCreatedAt: int, lastId: Id)
    requires w.following != [] && FromTable(w, user, limit, lastCreatedAt, lastId)
    ensures ServesTable(FeedPage(w, user, limit, lastCreatedAt, lastId), w, limit, lastCreatedAt, lastId)
  {
    NothingPresent(w, user, limit, lastCreatedAt, lastId);
    TablePageServes(w, limit, lastCreatedAt, lastId);
  }

  /** Only published videos, nothing for someone who follows nobody, and from the table exactly what it serves. */
  ghost predicate ProperPage(page: seq<Shown>, w: World, user: Id, limit: nat, lastCreatedAt: int, lastId: Id) {
    && (forall v :: v in page ==> v.id in w.rows && w.rows[v.id].published && v.createdAt == w.rows[v.id].createdAt)
    && (w.following == [] ==> page == [])
    && (w.following != [] && FromTable(w, user, limit, lastCreatedAt, lastId) ==>
          ServesTable(page, w, limit, lastCreatedAt, lastId))
  }

  lemma FeedIsProper(w: World, user: Id, limit: nat, lastCreatedAt: int, lastId: Id)
    ensures ProperPage(FeedPage(w, user, limit, lastCreatedAt, lastId), w, user, limit, lastCreatedAt, lastId)
  {
    forall v | v in FeedPage(w, user, limit, lastCreatedAt, lastId)
      ensures v.id in w.rows && w.rows[v.id].published && v.createdAt == w.rows[v.id].createdAt
    {
      PageShowsPublishedRows(w, user, limit, lastCreatedAt, lastId, v);
    }
    if w.following != [] && FromTable(w, user, limit, lastCreatedAt, lastId) {
      PageFromTableServes(w, user, limit, lastCreatedAt, lastId);
    }
  }

  // ------------------------------------------------------------------ walking down

  /** Pages that lie below the cursor they are asked for with, whenever that is. */
  ghost predicate PagesDescend(pages: (nat, int, Id) -> seq<Shown>, created: Id -> nat) {
    forall k, createdAt, lastId :: Descends(pages(k, createdAt, lastId), created, createdAt, lastId)
  }

  /** Reading page after page from a cursor until an empty one, the k-th request of the walk first. That this
      function is well defined is the claim that every walk over such pages ends. */
  ghost function Walk(pages: (nat, int, Id) -> seq<Shown>, created: Id -> nat, k: nat, createdAt: nat, lastId: Id): (r: seq<Shown>)
    requires PagesDescend(pages, created)
    ensures Descends(r, created, createdAt, lastId)
    decreases if lastId == 0 then 1 else 0, createdAt, lastId
  {
    var page := pages(k, createdAt, lastId);
    assert Descends(page, created, createdAt, lastId);
    if page == [] then []
    else
      var last := page[|page| - 1];
      assert lastId > 0 ==> Below(last, createdAt, lastId);
      var rest := Walk(pages, created, k + 1, last.createdAt, last.id);
      DescendsJoin(page, rest, created, createdAt, lastId);
      page + rest
  }

  /** The feed's pages; the k-th request sees the world worlds(k). */
  ghost function Feed(worlds: nat -> World, user: Id, limit: nat): (nat, int, Id) -> seq<Shown> {
    (k: nat, createdAt: int, lastId: Id) => FeedPage(worlds(k), user, limit, createdAt, lastId)
  }

  lemma FeedDescends(worlds: nat -> World, user: Id, created: Id -> nat, limit: nat)
    requires forall k :: Consistent(worlds(k), created)
    ensures PagesDescend(Feed(worlds, user, limit), created)
  {
    forall k: nat, createdAt: int, lastId: Id
      ensures Descends(Feed(worlds, user, limit)(k, createdAt, lastId), created, createdAt, lastId)
    {
      PageDescends(worlds(k), user, created, limit, createdAt, lastId);
    }
  }

  lemma DescendsJoin(page: seq<Shown>, rest: seq<Shown>, created: Id -> nat, createdAt: int, lastId: Id)
    requires page != [] && Descends(page, created, createdAt, lastId)
    requires Descends(rest, created, page[|page| - 1].createdAt, page[|page| - 1].id)
    ensures Descends(page + rest, created, createdAt, lastId)
  {
    var r := page + rest;
    var last := page[|page| - 1];
    forall i | 0 <= i < |r|
      ensures r[i].id > 0 && r[i].createdAt == created(r[i].id)
      ensures lastId > 0 ==> Below(r[i], createdAt, lastId)
    {
      if i >= |page| {
        assert r[i] == rest[i - |page|] && Below(r[i], last.createdAt, last.id);
      }
    }
    forall i, j | 0 <= i < j < |r| ensures Below(r[j], r[i].createdAt, r[i].id) {
      if i < |page| <= j {
        assert r[j] == rest[j - |page|] && Below(r[j], last.createdAt, last.id);
        assert i < |page| - 1 ==> Below(last, page[i].createdAt, page[i].id);
      } else if i >= |page| {
        assert r[i] == rest[i - |page|] && r[j] == rest[j - |page|];
      }
    }
  }

  /** A walk from the first page never shows a video twice, even while videos are published, hidden, deleted
      and indexed between its pages, and whichever pages come from the table. */
  lemma WalkNeverRepeats(worlds: nat -> World, user: Id, created: Id -> nat, limit: nat)
    requires forall k :: Consistent(worlds(k), created)
    ensures PagesDescend(Feed(worlds, user, limit), created)
    ensures var walk := Walk(Feed(worlds, user, limit), created, 0, 0, 0);
            forall i, j :: 0 <= i < j < |walk| ==> walk[i].id != walk[j].id
  {
    FeedDescends(worlds, user, created, limit);
    DescendingIsDistinct(Walk(Feed(worlds, user, limit), created, 0, 0, 0), created, 0, 0);
  }

  lemma DescendingIsDistinct(s: seq<Shown>, created: Id -> nat, createdAt: int, lastId: Id)
    requires Descends(s, created, createdAt, lastId)
    ensures forall i, j :: 0 <= i < j < |s| ==> s[i].id != s[j].id
  {
    forall i, j | 0 <= i < j < |s| ensures s[i].id != s[j].id {
      assert Below(s[j], s[i].createdAt, s[i].id);
    }
  }

  // ------------------------------------------------------------------ what the first rows of a page are

  lemma {:induction false} PresentConcat(rows: map<Id, Row>, a: seq<HotItem>, b: seq<HotItem>)
    ensures Present(rows, a + b) == Present(rows, a) + Present(rows, b)
  {
    if b == [] {
      assert a + b == a;
    } else {
      var n := |b| - 1;
      PresentConcat(rows, a, b[..n]);
      assert (a + b)[..|a + b| - 1] == a + b[..n];
    }
  }

  lemma {:induction false} PresentRanked(rows: map<Id, Row>, items: seq<HotItem>)
    requires Ranked(Newer, items)
    requires forall item :: item in items && item.id in rows ==> rows[item.id].createdAt == item.score
    ensures Ranked(Later, Present(rows, items))
  {
    if items != [] {
      var n := |items| - 1;
      forall item | item in items[..n] ensures item in items {}
      PresentRanked(rows, items[..n]);
      if items[n].id in rows && rows[items[n].id].published {
        var before, last := Present(rows, items[..n]), Shown(items[n].score, rows[items[n].id].createdAt, items[n].id);
        forall shown | shown in before ensures Later(shown, last) { PresentBefore(rows, items, n, shown); }
        RankedSnoc(before, last);
      }
    }
  }

  lemma PresentBefore(rows: map<Id, Row>, items: seq<HotItem>, n: nat, shown: Shown)
    requires Ranked(Newer, items) && n < |items| && items[n].id in rows
    requires forall item :: item in items && item.id in rows ==> rows[item.id].createdAt == item.score
    requires shown in Present(rows, items[..n])
    ensures Later(shown, Shown(items[n].score, rows[items[n].id].createdAt, items[n].id))
  {
    var k :| 0 <= k < n && items[..n][k] == HotItem(shown.id, shown.score);
    assert Newer(items[k], items[n]) && items[k] in items && items[n] in items;
  }

  lemma RankedSnoc(before: seq<Shown>, last: Shown)
    requires Ranked(Later, before) && forall shown :: shown in before ==> Later(shown, last)
    ensures Ranked(Later, before + [last])
  {
    var r := before + [last];
    forall i, j | 0 <= i < j < |r| ensures Later(r[i], r[j]) {
      assert r[i] in before;
    }
  }

  lemma {:induction false} PresentSubset(rows: map<Id, Row>, items: seq<HotItem>, item: HotItem)
    requires item in items && item.id in rows && rows[item.id].published
    ensures Shown(item.score, rows[item.id].createdAt, item.id) in Present(rows, items)
  {
    var n := |items| - 1;
    if item in items[..n] {
      PresentSubset(rows, items[..n], item);
    } else {
      assert item == items[n];
    }
  }

  /** If two lists agree on a prefix that already has `limit` rows left, or is all of both, then filtering and
      cutting them gives the same. */
  lemma PresentPrefix(rows: map<Id, Row>, r: seq<HotItem>, t: seq<HotItem>, m: nat, limit: nat)
    requires Take(r, m) == Take(t, m)
    requires |Present(rows, Take(t, m))| >= limit || (|r| <= m && |t| <= m)
    ensures Take(Present(rows, r), limit) == Take(Present(rows, t), limit)
  {
    if |r| <= m && |t| <= m {
      assert Take(r, m) == r && Take(t, m) == t;
    } else {
      var a, b := r[|Take(r, m)|..], t[|Take(t, m)|..];
      assert r == Take(r, m) + a && t == Take(t, m) + b;
      PresentConcat(rows, Take(r, m), a);
      PresentConcat(rows, Take(t, m), b);
      TakeOfPrefix(Present(rows, Take(t, m)), Present(rows, a), limit);
      TakeOfPrefix(Present(rows, Take(t, m)), Present(rows, b), limit);
    }
  }

  lemma TakeOfPrefix<T>(s: seq<T>, rest: seq<T>, n: nat)
    requires n <= |s|
    ensures Take(s + rest, n) == Take(s, n)
  {
    assert Take(s + rest, n) == Take(s, n);
  }

  /** The filters drop at most d of what is fetched from any one source, a video has one score, and at most 20 - d
      of the newest limit + 20 - d videos in view have lost their published row. */
  ghost predicate WithinExtra(w: World, q: Query, limit: nat, d: nat)
    requires q.limit > 0
  {
    && d <= CANDIDATE_EXTRA && FiltersDrop(q, Sources(w.ix, q), d) && OneScorePerVideo(Visible(q, Sources(w.ix, q)))
    && var top := Take(Newest(Visible(q, Sources(w.ix, q))), limit + CANDIDATE_EXTRA - d);
       |top| - |Present(w.rows, top)| <= CANDIDATE_EXTRA - d
  }

  /** The page serves the newest: as long as what is lost stays within the extra entries fetched, the page is
      exactly the newest `limit` videos that the index makes visible below the cursor and that still have a
      published row; where there is none, it is the table's page. */
  lemma FeedServesNewest(w: World, user: Id, created: Id -> nat, limit: nat, lastCreatedAt: int, lastId: Id, d: nat)
    requires Consistent(w, created) && w.following != []
    requires Page(w.ix, QueryOf(w, user, limit, lastCreatedAt, lastId)).Some?
    requires WithinExtra(w, QueryOf(w, user, limit, lastCreatedAt, lastId), limit, d)
    ensures var q := QueryOf(w, user, limit, lastCreatedAt, lastId);
            var all := Present(w.rows, Newest(Visible(q, Sources(w.ix, q))));
            FeedPage(w, user, limit, lastCreatedAt, lastId) ==
              if all == [] then TablePage(w, limit, lastCreatedAt, lastId) else Take(all, limit)
  {
    var q := QueryOf(w, user, limit, lastCreatedAt, lastId);
    var r, t := Page(w.ix, q).value, Newest(Visible(q, Sources(w.ix, q)));
    assert SameFront(w.rows, r, t, limit) by { FrontServes(w, q, limit, d); }
    assert Latest(Elems(Present(w.rows, r))) == Present(w.rows, r) by { PageInOrder(w, q, created); }
    TableOfNone(w, lastCreatedAt, lastId);
  }

  lemma TableOfNone(w: World, lastCreatedAt: int, lastId: Id)
    ensures TablePage(w, 0, lastCreatedAt, lastId) == []
  {
  }

  /** The page's rows and all rows in view start with the same `limit`, and there are none only together. */
  predicate SameFront(rows: map<Id, Row>, r: seq<HotItem>, t: seq<HotItem>, limit: nat) {
    && Take(Present(rows, r), limit) == Take(Present(rows, t), limit)
    && (limit > 0 ==> (Present(rows, r) == [] <==> Present(rows, t) == []))
  }

  lemma FrontServes(w: World, q: Query, limit: nat, d: nat)
    requires Page(w.ix, q).Some? && q.limit == limit + CANDIDATE_EXTRA && WithinExtra(w, q, limit, d)
    ensures SameFront(w.rows, Page(w.ix, q).value, Newest(Visible(q, Sources(w.ix, q))), limit)
  {
    var r, t := Page(w.ix, q).value, Newest(Visible(q, Sources(w.ix, q)));
    var m := limit + CANDIDATE_EXTRA - d;
    assert Take(r, m) == Take(t, m) by { PageIsSortedUnion(w.ix, q, d); }
    assert |t| < m ==> |r| < m by { PageWithin(w, q, m); }
    FrontAgrees(w.rows, r, t, m, limit);
  }

  lemma FrontAgrees(rows: map<Id, Row>, r: seq<HotItem>, t: seq<HotItem>, m: nat, limit: nat)
    requires Take(r, m) == Take(t, m) && (|t| < m ==> |r| < m) && limit <= m
    requires |Take(t, m)| - |Present(rows, Take(t, m))| <= m - limit
    ensures SameFront(rows, r, t, limit)
  {
    PresentPrefix(rows, r, t, m, limit);
    if Present(rows, r) == [] && limit > 0 {
      EmptyPage(rows, r, t, m);
    }
  }

  /** A page without a row means there is none. */
  lemma EmptyPage(rows: map<Id, Row>, r: seq<HotItem>, t: seq<HotItem>, m: nat)
    requires Take(r, m) == Take(t, m) && Present(rows, r) == []
    requires |Take(t, m)| - |Present(rows, Take(t, m))| < m
    ensures Present(rows, t) == []
  {
    var head := Take(r, m);
    assert r == head + r[|head|..];
    PresentConcat(rows, head, r[|head|..]);
    assert Take(t, m) == t;
  }

  lemma PageWithin(w: World, q: Query, m: nat)
    requires Page(w.ix, q).Some?
    ensures |Newest(Visible(q, Sources(w.ix, q)))| < m ==> |Page(w.ix, q).value| < m
  {
    var sources := Sources(w.ix, q);
    var unique := Newest(Elems(Dedup(Fetched(q, sources))));
    KeptIsVisible(q, sources);
    NewerIsTotal();
    forall x | x in unique ensures x in Newest(Visible(q, sources)) {
      assert x in Elems(unique);
      assert x in Elems(Newest(Visible(q, sources)));
    }
    NoMoreThan(Newer, unique, Newest(Visible(q, sources)));
  }

  lemma PageInOrder(w: World, q: Query, created: Id -> nat)
    requires Consistent(w, created) && Page(w.ix, q).Some?
    ensures Latest(Elems(Present(w.rows, Page(w.ix, q).value))) == Present(w.rows, Page(w.ix, q).value)
  {
    var r := Page(w.ix, q).value;
    PageIsSound(w.ix, q);
    forall item | item in r && item.id in w.rows ensures w.rows[item.id].createdAt == item.score {
      VouchedIsDated(w, q, created, item);
    }
    PresentRanked(w.rows, r);
    LaterIsTotal();
    RankedUnique(Later, Latest(Elems(Present(w.rows, r))), Present(w.rows, r));
  }

  // ------------------------------------------------------------------ the logic

  datatype Handled = Done | Permanent

  class Logic {
    const repo: FeedRepo.Repo

    constructor (repo: FeedRepo.Repo)
      ensures this.repo == repo
    {
      this.repo := repo;
    }

    /** `pages` is what SSCAN returns, call by call, until its cursor is 0 again. */
    method FanoutToInboxes(item: Item, pages: seq<seq<Id>>)
      modifies repo
      ensures repo.View() == Run(old(repo.View()), FanoutOps(item, pages))
    {
      for i := 0 to |pages|
        invariant repo.View() == Run(old(repo.View()), FanoutOps(item, pages[..i]))
      {
        repo.PushInboxItems(pages[i], item);
        assert pages[..i + 1][..i] == pages[..i];
        FeedRepo.RunConcat(old(repo.View()), FanoutOps(item, pages[..i]), PageOps(item, pages[i]));
      }
      assert pages[..|pages|] == pages;
    }

    method HandleVideoCreated(video: Id, author: Id, createdAt: Option<int>, now: int, followers: nat, pages: seq<seq<Id>>)
      returns (outcome: Handled)
      modifies repo
      ensures outcome == if video == 0 || author == 0 then Permanent else Done
      ensures var item := Item(video, author, Some(if createdAt.Some? then createdAt.value else now));
              repo.View() == Run(old(repo.View()), if outcome == Done then CreatedOps(item, followers, pages) else [])
    {
      if video == 0 || author == 0 {
        return Permanent;
      }
      var publishedAt := now;
      if createdAt.Some? {
        publishedAt := createdAt.value;
      }
      var item := Item(video, author, Some(publishedAt));
      if followers == 0 || followers >= BIG_AUTHOR {
        repo.PushOutboxItem(item);
        FeedRepo.RunSnoc(old(repo.View()), [], PushOutbox(item));
        return Done;
      }
      FanoutToInboxes(item, pages);
      return Done;
    }

    /** A rows query: the matching videos, latest first, cut to the limit. */
    method ListByAuthorsBefore(w: World, limit: nat, lastCreatedAt: int, lastId: Id) returns (list: seq<Shown>)
      ensures list == TablePage(w, limit, lastCreatedAt, lastId)
      ensures ServesTable(list, w, limit, lastCreatedAt, lastId)
    {
      LaterIsTotal();
      list := [];
      var left := w.rows.Keys;
      while left != {}
        invariant left <= w.rows.Keys && Ranked(Later, list)
        invariant forall v :: v in list <==> v in TableRows(w, lastCreatedAt, lastId) && v.id !in left
        decreases left
      {
        var id :| id in left;
        left := left - {id};
        var row := w.rows[id];
        if row.published && row.author in w.following && (lastId > 0 ==> row.createdAt <= lastCreatedAt && id < lastId) {
          InsertRanked(Later, list, Shown(row.createdAt, row.createdAt, id));
          list := Insert(Later, list, Shown(row.createdAt, row.createdAt, id));
        }
      }
      RankedUnique(Later, list, Latest(TableRows(w, lastCreatedAt, lastId)));
      list := Take(list, limit);
      TablePageServes(w, limit, lastCreatedAt, lastId);
    }

    /** The rows that are left, in the order of the feed. */
    method OrderVideos(rows: seq<Shown>, ghost items: seq<HotItem>, ghost table: map<Id, Row>) returns (list: seq<Shown>)
      requires rows == Present(table, items) && forall i, j :: 0 <= i < j < |items| ==> items[i].id != items[j].id
      ensures list == Latest(Elems(rows))
    {
      PresentDistinct(table, items);
      LaterIsTotal();
      list := Sort(Later, rows);
    }

    /** The page: from the index where it has something that is still out, and else from the table. */
    method ListFeed(w: World, user: Id, limit: nat, lastCreatedAt: int, lastId: Id) returns (list: seq<Shown>)
      requires w.ix == repo.View()
      ensures list == FeedPage(w, user, limit, lastCreatedAt, lastId)
    {
      list := [];
      if |w.following| == 0 {
        return;
      }
      var cursor := 0;
      if lastId > 0 {
        cursor := lastCreatedAt;
      }
      var q := Query(user, w.following, cursor, lastId, limit + CANDIDATE_EXTRA);
      var items, indexed := repo.FollowPage(q);
      if indexed {
        PageIsSound(w.ix, q);
        list := OrderVideos(Present(w.rows, items), items, w.rows);
      }
      if list == [] {
        list := ListByAuthorsBefore(w, limit, lastCreatedAt, lastId);
      } else {
        list := Take(list, limit);
      }
    }

    /** The next cursor is (0, 0) after an empty page. */
    method GetFollowFeedVideos(w: World, user: Id, limit: nat, lastCreatedAt: int, lastId: Id)
      returns (list: seq<Shown>, nextCreatedAt: int, nextId: Id)
      requires w.ix == repo.View()
      ensures list == FeedPage(w, user, limit, lastCreatedAt, lastId)
      ensures ProperPage(list, w, user, limit, lastCreatedAt, lastId)
      ensures list == [] ==> nextCreatedAt == 0 && nextId == 0
      ensures list != [] ==> nextCreatedAt == list[|list| - 1].createdAt && nextId == list[|list| - 1].id
    {
      nextCreatedAt, nextId := 0, 0;
      list := ListFeed(w, user, limit, lastCreatedAt, lastId);
      FeedIsProper(w, user, limit, lastCreatedAt, lastId);
      if list != [] {
        nextCreatedAt, nextId := list[|list| - 1].createdAt, list[|list| - 1].id;
      }
    }

    /** Following someone backfills the follower's inbox with that author's latest videos; unfollowing does
        nothing. */
    method HandleFollowSwitched(w: World, follower: Id, following: Id, followed: bool) returns (outcome: Handled)
      modifies repo
      ensures outcome == if follower == 0 || following == 0 then Permanent else Done
      ensures repo.View() ==
                if outcome == Done && followed
                then var latest := TablePage(w.(following := [following]), BACKFILL_LIMIT, 0, 0);
                     Apply(old(repo.View()), Backfill(follower, BackfillItems(latest, following)))
                else old(repo.View())
    {
      if follower == 0 || following == 0 {
        return Permanent;
      }
      if !followed {
        return Done;
      }
      var rows := ListByAuthorsBefore(w.(following := [following]), BACKFILL_LIMIT, 0, 0);
      if |rows| == 0 {
        return Done;
      }
      repo.PushInboxItemsForFollower(follower, BackfillItems(rows, following));
      return Done;
    }
  }

  function BackfillItems(rows: seq<Shown>, author: Id): (r: seq<Item>)
    ensures |r| == |rows|
    ensures forall i :: 0 <= i < |r| ==> r[i] == Item(rows[i].id, author, Some(rows[i].createdAt))
  {
    seq(|rows|, i requires 0 <= i < |rows| => Item(rows[i].id, author, Some(rows[i].createdAt)))
  }

  /** Following someone offers the follower's inbox that author's latest twenty published videos, each at its create
      time, and nothing of anybody else. */
  lemma FollowingOffersTheLatest(w: World, following: Id)
    ensures var items := BackfillItems(TablePage(w.(following := [following]), BACKFILL_LIMIT, 0, 0), following);
            && |items| <= 20
            && (forall item :: item in items ==>
                  && item.video in w.rows && w.rows[item.video].published
                     && w.rows[item.video].author == following == item.author
                  && item.publishedAt == Some(w.rows[item.video].createdAt))
            && (forall id :: id in w.rows && w.rows[id].published && w.rows[id].author == following ==>
                  || Item(id, following, Some(w.rows[id].createdAt)) in items
                  || (|items| == 20 && forall item :: item in items ==>
                        || w.rows[item.video].createdAt > w.rows[id].createdAt
                        || (w.rows[item.video].createdAt == w.rows[id].createdAt && item.video > id)))
  {
    var rows := TablePage(w.(following := [following]), BACKFILL_LIMIT, 0, 0);
    TablePageServes(w.(following := [following]), BACKFILL_LIMIT, 0, 0);
    ItemsOfRows(rows, following);
  }

  lemma ItemsOfRows(rows: seq<Shown>, author: Id)
    ensures forall item :: item in BackfillItems(rows, author) ==>
              exists v :: v in rows && item == Item(v.id, author, Some(v.createdAt))
    ensures forall v :: v in rows ==> Item(v.id, author, Some(v.createdAt)) in BackfillItems(rows, author)
  {
    var items := BackfillItems(rows, author);
    forall item | item in items ensures exists v :: v in rows && item == Item(v.id, author, Some(v.createdAt)) {
      var i :| 0 <= i < |items| && items[i] == item;
      assert rows[i] in rows;
    }
    forall v | v in rows ensures Item(v.id, author, Some(v.createdAt)) in items {
      var i :| 0 <= i < |rows| && rows[i] == v;
      assert items[i] == Item(v.id, author, Some(v.createdAt));
    }
  }

  lemma {:induction false} PresentDistinct(rows: map<Id, Row>, items: seq<HotItem>)
    requires forall i, j :: 0 <= i < j < |items| ==> items[i].id != items[j].id
    ensures forall i, j :: 0 <= i < j < |Present(rows, items)| ==> Present(rows, items)[i] != Present(rows, items)[j]
  {
    if items != [] {
      var n := |items| - 1;
      PresentDistinct(rows, items[..n]);
      var before := Present(rows, items[..n]);
      forall i | 0 <= i < |before| ensures before[i].id != items[n].id {
        assert before[i] in before;
        var k :| 0 <= k < n && items[..n][k] == HotItem(before[i].id, before[i].score);
      }
    }
  }
}
