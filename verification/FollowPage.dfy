/** Reading one page of the follow feed from the index: the user's inbox and the outboxes of the big authors
    followed, each read up to a limit, filtered, merged, sorted and cut. */
module FollowPage {
  import opened Ranking
  import opened Text
  import opened SortedSet
  import opened FollowIndex

  datatype HotItem = HotItem(id: Id, score: int)

  /** The request: who asks, whom they follow, the cursor (lastId 0 is the first page) and the page size. */
  datatype Query = Query(user: Id, followed: seq<Id>, lastCreatedAt: int, lastId: Id, limit: int)

  /** One key to read: the inbox, or the outbox of `owner`. */
  datatype Source = Source(inbox: bool, owner: Id, entries: seq<Entry>)

  predicate Newer(a: HotItem, b: HotItem) {
    a.score > b.score || (a.score == b.score && a.id > b.id)
  }

  lemma NewerIsTotal()
    ensures StrictTotal(Newer)
  {
  }

  /** parseFollowMember: (video, author). */
  function ParseMember(member: string, inbox: bool, owner: Id): Option<(Id, Id)> {
    if !inbox then
      match ParseUint(member)
      case None => None
      case Some(video) => if owner == 0 then None else Some((video, owner))
    else
      match Cut(member, ':')
      case None => None
      case Some((v, a)) =>
        match (ParseUint(v), ParseUint(a))
        case (Some(video), Some(author)) => Some((video, author))
        case _ => None
  }

  function MaxScore(q: Query): Option<int> {
    if q.lastId > 0 then Some(q.lastCreatedAt) else None
  }

  /** The item an entry contributes, if it survives the filters. */
  function Candidate(q: Query, src: Source, e: Entry): Option<HotItem> {
    match ParseMember(e.member, src.inbox, src.owner)
    case None => None
    case Some((video, author)) =>
      if author !in q.followed then None
      else if q.lastId > 0 && e.score == q.lastCreatedAt && video >= q.lastId then None
      else Some(HotItem(video, e.score))
  }

  function Candidates(q: Query, src: Source, entries: seq<Entry>): (r: seq<HotItem>)
    ensures |r| <= |entries|
  {
    if entries == [] then []
    else
      var before := Candidates(q, src, entries[..|entries| - 1]);
      match Candidate(q, src, entries[|entries| - 1])
      case None => before
      case Some(item) => before + [item]
  }

  function Fetch(q: Query, src: Source): seq<Entry>
    requires q.limit > 0
  {
    ZRevRangeByScore(src.entries, MaxScore(q), q.limit)
  }

  function Fetched(q: Query, sources: seq<Source>): seq<HotItem>
    requires q.limit > 0
  {
    if sources == [] then []
    else
      var src := sources[|sources| - 1];
      Fetched(q, sources[..|sources| - 1]) + Candidates(q, src, Fetch(q, src))
  }

  function Ids(items: seq<HotItem>): (r: set<Id>)
    ensures forall id :: id in r <==> exists i :: 0 <= i < |items| && items[i].id == id
  {
    set i | 0 <= i < |items| :: items[i].id
  }

  /** The first item of each video. */
  function Dedup(items: seq<HotItem>): (r: seq<HotItem>)
    ensures Ids(r) == Ids(items)
    ensures forall item :: item in r ==> item in items
    ensures forall i, j :: 0 <= i < j < |r| ==> r[i].id != r[j].id
  {
    if items == [] then []
    else
      var n := |items| - 1;
      var before := Dedup(items[..n]);
      assert Ids(items) == Ids(items[..n]) + {items[n].id} by { IdsSnoc(items); }
      if items[n].id in Ids(before) then before
      else
        assert Ids(before + [items[n]]) == Ids(before) + {items[n].id} by { IdsSnoc(before + [items[n]]); }
        before + [items[n]]
  }

  lemma IdsSnoc(items: seq<HotItem>)
    requires items != []
    ensures Ids(items) == Ids(items[..|items| - 1]) + {items[|items| - 1].id}
  {
    var n := |items| - 1;
    forall id | id in Ids(items) ensures id in Ids(items[..n]) + {items[n].id} {
      var i :| 0 <= i < |items| && items[i].id == id;
      if i < n { assert items[..n][i].id == id; }
    }
    forall id | id in Ids(items[..n]) ensures id in Ids(items) {
      var i :| 0 <= i < n && items[..n][i].id == id;
      assert items[i].id == id;
    }
  }

  ghost function Newest(items: set<HotItem>): (r: seq<HotItem>)
    ensures Ranked(Newer, r) && Elems(r) == items
  {
    NewerIsTotal();
    Rank(Newer, items)
  }

  /** The keys a request reads: the inbox, then every followed author who has an outbox. */
  function Sources(ix: Index, q: Query): (r: seq<Source>)
    ensures |r| > 0 && r[0] == Source(true, 0, At(ix.inboxes, q.user))
  {
    [Source(true, 0, At(ix.inboxes, q.user))] + Outboxes(ix, q, q.followed)
  }

  function Outboxes(ix: Index, q: Query, authors: seq<Id>): seq<Source> {
    if authors == [] then []
    else
      var author := authors[|authors| - 1];
      var before := Outboxes(ix, q, authors[..|authors| - 1]);
      if author > 0 && author != q.user && At(ix.outboxes, author) != []
      then before + [Source(false, author, At(ix.outboxes, author))] else before
  }

  /** The page, or None when the index has nothing to say and the table must be read. */
  ghost function Page(ix: Index, q: Query): Option<seq<HotItem>> {
    if q.user == 0 || q.limit <= 0 then None
    else
      var sources := Sources(ix, q);
      if forall src :: src in sources ==> Fetch(q, src) == [] then None
      else Some(Take(Newest(Elems(Dedup(Fetched(q, sources)))), q.limit))
  }

  // ------------------------------------------------------------------ every page is sound

  predicate BelowCursor(q: Query, item: HotItem) {
    q.lastId > 0 ==> Newer(HotItem(q.lastId, q.lastCreatedAt), item)
  }

  /** The item is an entry of one of the sources, by an author followed. */
  ghost predicate Vouched(q: Query, sources: seq<Source>, item: HotItem) {
    exists i, e, author ::
      && 0 <= i < |sources| && e in sources[i].entries && e.score == item.score
      && ParseMember(e.member, sources[i].inbox, sources[i].owner) == Some((item.id, author)) && author in q.followed
  }

  lemma {:induction false} CandidatesFrom(q: Query, src: Source, entries: seq<Entry>, item: HotItem)
    requires item in Candidates(q, src, entries)
    ensures exists e :: e in entries && Candidate(q, src, e) == Some(item)
  {
    var n := |entries| - 1;
    if Candidate(q, src, entries[n]) != Some(item) {
      CandidatesFrom(q, src, entries[..n], item);
      var e :| e in entries[..n] && Candidate(q, src, e) == Some(item);
      assert e in entries;
    } else {
      assert entries[n] in entries;
    }
  }

  lemma {:induction false} CandidatesInclude(q: Query, src: Source, entries: seq<Entry>, e: Entry)
    requires e in entries && Candidate(q, src, e).Some?
    ensures Candidate(q, src, e).value in Candidates(q, src, entries)
  {
    var n := |entries| - 1;
    if e in entries[..n] {
      CandidatesInclude(q, src, entries[..n], e);
    } else {
      assert e == entries[n];
    }
  }

  lemma {:induction false} FetchedFrom(q: Query, sources: seq<Source>, item: HotItem)
    requires q.limit > 0 && item in Fetched(q, sources)
    ensures exists i :: 0 <= i < |sources| && item in Candidates(q, sources[i], Fetch(q, sources[i]))
  {
    var n := |sources| - 1;
    if item !in Candidates(q, sources[n], Fetch(q, sources[n])) {
      FetchedFrom(q, sources[..n], item);
    }
  }

  lemma {:induction false} FetchedIncludes(q: Query, sources: seq<Source>, i: nat, item: HotItem)
    requires q.limit > 0 && i < |sources| && item in Candidates(q, sources[i], Fetch(q, sources[i]))
    ensures item in Fetched(q, sources)
  {
    var n := |sources| - 1;
    if i < n {
      FetchedIncludes(q, sources[..n], i, item);
    }
  }

  lemma FetchedSound(q: Query, sources: seq<Source>, item: HotItem)
    requires q.limit > 0 && item in Fetched(q, sources)
    ensures BelowCursor(q, item) && Vouched(q, sources, item)
    ensures item in Visible(q, sources)
  {
    FetchedFrom(q, sources, item);
    var i :| 0 <= i < |sources| && item in Candidates(q, sources[i], Fetch(q, sources[i]));
    CandidatesFrom(q, sources[i], Fetch(q, sources[i]), item);
    var e :| e in Fetch(q, sources[i]) && Candidate(q, sources[i], e) == Some(item);
    assert e in AtMost(sources[i].entries, MaxScore(q));
    CandidatesInclude(q, sources[i], AtMost(sources[i].entries, MaxScore(q)), e);
    var author := ParseMember(e.member, sources[i].inbox, sources[i].owner).value.1;
    assert e in sources[i].entries && author in q.followed;
  }

  /** Whatever the index holds, a page is strictly descending in (score, id), names no video twice, lies
      strictly below the cursor, and shows only entries of authors followed now. */
  lemma PageIsSound(ix: Index, q: Query)
    requires Page(ix, q).Some?
    ensures var page := Page(ix, q).value;
            && |page| <= q.limit
            && Ranked(Newer, page)
            && (forall i, j :: 0 <= i < j < |page| ==> page[i].id != page[j].id)
            && (forall item :: item in page ==> BelowCursor(q, item) && Vouched(q, Sources(ix, q), item))
  {
    var sources := Sources(ix, q);
    var page := Page(ix, q).value;
    var unique := Dedup(Fetched(q, sources));
    var all := Newest(Elems(unique));
    forall item | item in page ensures item in unique && BelowCursor(q, item) && Vouched(q, sources, item) {
      assert item in all;
      assert item in Elems(unique);
      FetchedSound(q, sources, item);
    }
    forall i, j | 0 <= i < j < |page| ensures page[i].id != page[j].id {
      assert page[i] in page && page[j] in page && Newer(page[i], page[j]);
      var k :| 0 <= k < |unique| && unique[k] == page[i];
      var m :| 0 <= m < |unique| && unique[m] == page[j];
      assert k != m;
    }
  }

  // ------------------------------------------------------------------ and exact, up to what was filtered

  /** Everything the request could see: all entries at or below the cursor's time that survive the filters,
      with no limit per source. */
  function Visible(q: Query, sources: seq<Source>): set<HotItem> {
    set i, item | 0 <= i < |sources| && item in Candidates(q, sources[i], AtMost(sources[i].entries, MaxScore(q))) :: item
  }

  /** The surviving entries of each source are in (score, id) order. Redis breaks ties by member bytes, so
      this asks something of entries of one source with one score only. */
  ghost predicate Aligned(q: Query, src: Source) {
    Ranked(Newer, Candidates(q, src, AtMost(src.entries, MaxScore(q))))
  }

  /** How many of the entries fetched from a source the filters throw away. */
  function Dropped(q: Query, src: Source): nat
    requires q.limit > 0
  {
    |Fetch(q, src)| - |Candidates(q, src, Fetch(q, src))|
  }

  /** No source loses more than d of its fetched entries to the filters, and each is in order. */
  ghost predicate FiltersDrop(q: Query, sources: seq<Source>, d: nat)
    requires q.limit > 0
  {
    forall src {:trigger DropsFew(q, src, d)} :: src in sources ==> DropsFew(q, src, d)
  }

  ghost predicate DropsFew(q: Query, src: Source, d: nat)
    requires q.limit > 0
  {
    Aligned(q, src) && Dropped(q, src) <= d
  }

  predicate SameVideo(a: HotItem, b: HotItem) { a.id == b.id }

  ghost predicate OneScorePerVideo(items: set<HotItem>) {
    forall a, b {:trigger SameVideo(a, b)} :: SameVideo(a, b) && a in items && b in items ==> a == b
  }

  lemma {:induction false} CandidatesPrefix(q: Query, src: Source, entries: seq<Entry>, n: nat)
    requires n <= |entries|
    ensures Candidates(q, src, entries[..n]) <= Candidates(q, src, entries)
  {
    var m := |entries| - 1;
    if n <= m {
      CandidatesPrefix(q, src, entries[..m], n);
      assert entries[..m][..n] == entries[..n];
    } else {
      assert entries[..n] == entries;
    }
  }

  /** A visible item that few enough visible items precede was fetched. */
  lemma TopIsFetched(q: Query, src: Source, d: nat, t: seq<HotItem>, k: nat)
    requires q.limit > 0 && Aligned(q, src) && Dropped(q, src) <= d
    requires Ranked(Newer, t) && k < |t| && k < q.limit - d
    requires forall item :: item in Candidates(q, src, AtMost(src.entries, MaxScore(q))) ==> item in t
    requires t[k] in Candidates(q, src, AtMost(src.entries, MaxScore(q)))
    ensures t[k] in Candidates(q, src, Fetch(q, src))
  {
    var full := AtMost(src.entries, MaxScore(q));
    var all, got := Candidates(q, src, full), Candidates(q, src, Fetch(q, src));
    if |full| <= q.limit {
      assert Fetch(q, src) == full;
    } else {
      CandidatesPrefix(q, src, full, q.limit);
      var i :| 0 <= i < |all| && all[i] == t[k];
      NewerIsTotal();
      IndexInSuperset(Newer, all, t, i, k);
      assert got[i] == all[i];
    }
  }

  lemma VisibleIsFetched(q: Query, sources: seq<Source>, d: nat, t: seq<HotItem>, k: nat)
    requires q.limit > 0
    requires FiltersDrop(q, sources, d)
    requires Ranked(Newer, t) && Elems(t) == Visible(q, sources) && k < |t| && k < q.limit - d
    ensures t[k] in Fetched(q, sources)
  {
    assert t[k] in Elems(t);
    var i :| 0 <= i < |sources| && t[k] in Candidates(q, sources[i], AtMost(sources[i].entries, MaxScore(q)));
    forall item | item in Candidates(q, sources[i], AtMost(sources[i].entries, MaxScore(q))) ensures item in t {
      assert item in Elems(t);
    }
    assert DropsFew(q, sources[i], d);
    TopIsFetched(q, sources[i], d, t, k);
    FetchedIncludes(q, sources, i, t[k]);
  }

  lemma DedupKeeps(items: seq<HotItem>, all: set<HotItem>, item: HotItem)
    requires OneScorePerVideo(all) && item in items && forall x :: x in items ==> x in all
    ensures item in Dedup(items)
  {
    assert item.id in Ids(Dedup(items));
    var i :| 0 <= i < |Dedup(items)| && Dedup(items)[i].id == item.id;
    assert Dedup(items)[i] in items && SameVideo(Dedup(items)[i], item);
  }

  lemma FetchedIsVisible(q: Query, sources: seq<Source>)
    requires q.limit > 0
    ensures forall x :: x in Fetched(q, sources) ==> x in Visible(q, sources)
  {
    forall x | x in Fetched(q, sources) ensures x in Visible(q, sources) { FetchedSound(q, sources, x); }
  }

  lemma TopSurvives(q: Query, sources: seq<Source>, d: nat, k: nat)
    requires q.limit > 0 && d <= q.limit && OneScorePerVideo(Visible(q, sources))
    requires FiltersDrop(q, sources, d)
    requires k < q.limit - d && k < |Newest(Visible(q, sources))|
    ensures Newest(Visible(q, sources))[k] in Elems(Dedup(Fetched(q, sources)))
  {
    FetchedIsVisible(q, sources);
    VisibleIsFetched(q, sources, d, Newest(Visible(q, sources)), k);
    DedupKeeps(Fetched(q, sources), Visible(q, sources), Newest(Visible(q, sources))[k]);
  }

  ghost predicate KeepsTop(kept: set<HotItem>, all: set<HotItem>, n: nat) {
    forall k :: 0 <= k < n && k < |Newest(all)| ==> IsKept(kept, all, k)
  }

  ghost predicate IsKept(kept: set<HotItem>, all: set<HotItem>, k: nat)
    requires k < |Newest(all)|
  {
    Newest(all)[k] in kept
  }

  lemma NewestPrefix(kept: set<HotItem>, all: set<HotItem>, n: nat)
    requires kept <= all && KeepsTop(kept, all, n)
    ensures Take(Newest(kept), n) == Take(Newest(all), n)
  {
    NewerIsTotal();
    assert Newest(all) == Rank(Newer, all) && Newest(kept) == Rank(Newer, kept);
    forall k | 0 <= k < n && k < |Newest(all)| ensures Newest(all)[k] in kept { assert IsKept(kept, all, k); }
    RankPrefix(Newer, kept, all, n);
  }

  /** A page starts as the ranking of all that was fetched does. */
  lemma PageIsCut(ix: Index, q: Query, n: nat)
    requires Page(ix, q).Some? && n <= q.limit
    ensures Take(Page(ix, q).value, n) == Take(Newest(Elems(Dedup(Fetched(q, Sources(ix, q))))), n)
  {
    TakeTake(Newest(Elems(Dedup(Fetched(q, Sources(ix, q))))), q.limit, n);
  }

  lemma TakeTake<T>(s: seq<T>, limit: nat, n: nat)
    requires n <= limit
    ensures Take(Take(s, limit), n) == Take(s, n)
  {
  }

  lemma TopsSurvive(q: Query, sources: seq<Source>, d: nat)
    requires q.limit > 0 && d <= q.limit && OneScorePerVideo(Visible(q, sources))
    requires FiltersDrop(q, sources, d)
    ensures KeepsTop(Elems(Dedup(Fetched(q, sources))), Visible(q, sources), q.limit - d)
  {
    forall k | 0 <= k < q.limit - d && k < |Newest(Visible(q, sources))|
      ensures IsKept(Elems(Dedup(Fetched(q, sources))), Visible(q, sources), k)
    {
      TopSurvives(q, sources, d, k);
    }
  }

  lemma KeptIsVisible(q: Query, sources: seq<Source>)
    requires q.limit > 0
    ensures Elems(Dedup(Fetched(q, sources))) <= Visible(q, sources)
  {
    FetchedIsVisible(q, sources);
  }

  ghost predicate StartsAlike(q: Query, sources: seq<Source>, n: nat)
    requires q.limit > 0
  {
    Take(Newest(Elems(Dedup(Fetched(q, sources)))), n) == Take(Newest(Visible(q, sources)), n)
  }

  lemma TopStartsAlike(q: Query, sources: seq<Source>, n: nat)
    requires q.limit > 0 && KeepsTop(Elems(Dedup(Fetched(q, sources))), Visible(q, sources), n)
    ensures StartsAlike(q, sources, n)
  {
    KeptIsVisible(q, sources);
    NewestPrefix(Elems(Dedup(Fetched(q, sources))), Visible(q, sources), n);
  }

  lemma FetchedStartsAlike(q: Query, sources: seq<Source>, d: nat)
    requires q.limit > 0 && d <= q.limit && OneScorePerVideo(Visible(q, sources))
    requires FiltersDrop(q, sources, d)
    ensures StartsAlike(q, sources, q.limit - d)
  {
    assert KeepsTop(Elems(Dedup(Fetched(q, sources))), Visible(q, sources), q.limit - d) by { TopsSurvive(q, sources, d); }
    TopStartsAlike(q, sources, q.limit - d);
  }

  /** The page is the sorted union: if the filters drop at most d of the entries fetched from any one source,
      the entries of a source are in (score, id) order, and a video has one score wherever it is indexed, then
      the first limit - d items of the page are the first limit - d of everything visible. */
  lemma PageIsSortedUnion(ix: Index, q: Query, d: nat)
    requires Page(ix, q).Some? && d <= q.limit
    requires FiltersDrop(q, Sources(ix, q), d)
    requires OneScorePerVideo(Visible(q, Sources(ix, q)))
    ensures Take(Page(ix, q).value, q.limit - d) == Take(Newest(Visible(q, Sources(ix, q))), q.limit - d)
  {
    assert StartsAlike(q, Sources(ix, q), q.limit - d) by { FetchedStartsAlike(q, Sources(ix, q), d); }
    PageIsCut(ix, q, q.limit - d);
  }

  // ------------------------------------------------------------------ when ties are safe

  /** Entries of equal score stand in the order of their video IDs, highest first. */
  ghost predicate TieSafe(src: Source) {
    forall i, j :: 0 <= i < j < |src.entries| && src.entries[i].score == src.entries[j].score ==>
      var a, b := ParseMember(src.entries[i].member, src.inbox, src.owner), ParseMember(src.entries[j].member, src.inbox, src.owner);
      a.Some? && b.Some? ==> a.value.0 > b.value.0
  }

  lemma {:induction false} CandidatesRanked(q: Query, src: Source, entries: seq<Entry>)
    requires forall i, j ::
               0 <= i < j < |entries| && Candidate(q, src, entries[i]).Some? && Candidate(q, src, entries[j]).Some? ==>
                 Newer(Candidate(q, src, entries[i]).value, Candidate(q, src, entries[j]).value)
    ensures Ranked(Newer, Candidates(q, src, entries))
  {
    if entries != [] {
      var n := |entries| - 1;
      CandidatesRanked(q, src, entries[..n]);
      var before := Candidates(q, src, entries[..n]);
      forall i | 0 <= i < |before| && Candidate(q, src, entries[n]).Some?
        ensures Newer(before[i], Candidate(q, src, entries[n]).value)
      {
        CandidatesFrom(q, src, entries[..n], before[i]);
        var e :| e in entries[..n] && Candidate(q, src, e) == Some(before[i]);
        var k :| 0 <= k < n && entries[k] == e;
      }
    }
  }

  lemma {:induction false} AtMostAll(z: seq<Entry>, max: Option<int>)
    requires max.Some? ==> forall e :: e in z ==> e.score <= max.value
    ensures AtMost(z, max) == z
  {
    if z != [] {
      AtMostAll(z[1..], max);
      assert z[0] in z;
    }
  }

  /** Reading down from a score reads a tail of the set. */
  lemma {:induction false} AtMostIsTail(z: seq<Entry>, max: Option<int>) returns (k: nat)
    requires Ranked(Above, z)
    ensures k <= |z| && AtMost(z, max) == z[k..]
  {
    if z == [] {
      k := 0;
    } else if max.Some? && z[0].score > max.value {
      k := AtMostIsTail(z[1..], max);
      k := k + 1;
    } else {
      k := 0;
      forall e | e in z ensures max.Some? ==> e.score <= max.value {
        var i :| 0 <= i < |z| && z[i] == e;
        assert i > 0 ==> Above(z[0], z[i]);
      }
      AtMostAll(z, max);
    }
  }

  /** A sorted set whose ties are in ID order meets PageIsSortedUnion's demand on sources, for every request;
      one without ties certainly does. */
  lemma TieSafeIsAligned(q: Query, src: Source)
    requires ZSet(src.entries) && TieSafe(src)
    ensures Aligned(q, src)
  {
    var got := AtMost(src.entries, MaxScore(q));
    var k := AtMostIsTail(src.entries, MaxScore(q));
    forall i, j | 0 <= i < j < |got| && Candidate(q, src, got[i]).Some? && Candidate(q, src, got[j]).Some?
      ensures Newer(Candidate(q, src, got[i]).value, Candidate(q, src, got[j]).value)
    {
      assert got[i] == src.entries[k + i] && got[j] == src.entries[k + j];
      assert Above(src.entries[k + i], src.entries[k + j]);
    }
    CandidatesRanked(q, src, got);
  }

  lemma DigitsHaveNoColon(s: string)
    requires AllDigits(s)
    ensures ':' !in s
  {
  }

  /** What the pushes write, the page reads back. */
  lemma MembersRoundTrip(item: Item, owner: Id)
    requires Indexable(item)
    ensures ParseMember(InboxEntry(item).member, true, owner) == Some((item.video, item.author))
    ensures item.author != 0 ==> ParseMember(OutboxEntry(item).member, false, item.author) == Some((item.video, item.author))
  {
    ParseFormat(item.video);
    ParseFormat(item.author);
    DigitsHaveNoColon(Format(item.video));
    CutAt(Format(item.video), ':', Format(item.author));
    assert InboxEntry(item).member == Format(item.video) + [':'] + Format(item.author);
  }

  /** The entries a source of pushed items holds; None where an entry was not pushed. */
  ghost predicate PushedFrom(src: Source, items: seq<Item>) {
    && |items| == |src.entries|
    && forall i :: 0 <= i < |items| ==>
         && Indexable(items[i])
         && (src.inbox ==> src.entries[i] == InboxEntry(items[i]))
         && (!src.inbox ==> items[i].author == src.owner != 0 && src.entries[i] == OutboxEntry(items[i]))
  }

  /** Ties are safe while the videos indexed at one moment have IDs of equal length in decimal. */
  lemma SameWidthIsTieSafe(src: Source, items: seq<Item>)
    requires ZSet(src.entries) && PushedFrom(src, items)
    requires forall i, j :: 0 <= i < j < |items| && items[i].publishedAt == items[j].publishedAt ==>
               items[i].video != items[j].video && |Format(items[i].video)| == |Format(items[j].video)|
    ensures TieSafe(src)
  {
    forall i, j | 0 <= i < j < |src.entries| && src.entries[i].score == src.entries[j].score
      ensures var a := ParseMember(src.entries[i].member, src.inbox, src.owner);
              var b := ParseMember(src.entries[j].member, src.inbox, src.owner);
              a.Some? && b.Some? ==> a.value.0 > b.value.0
    {
      MembersRoundTrip(items[i], src.owner);
      MembersRoundTrip(items[j], src.owner);
      assert Above(src.entries[i], src.entries[j]);
      TieOrder(items[i], items[j]);
    }
  }

  lemma TieOrder(a: Item, b: Item)
    requires Indexable(a) && Indexable(b) && a.video != b.video && |Format(a.video)| == |Format(b.video)|
    ensures Before(InboxEntry(b).member, InboxEntry(a).member) <==> b.video < a.video
    ensures Before(OutboxEntry(b).member, OutboxEntry(a).member) <==> b.video < a.video
  {
    ValueOfFormat(a.video);
    ValueOfFormat(b.video);
    SameLengthOrder(Format(b.video), Format(a.video));
    BeforeExtend(Format(b.video), Format(a.video), ":" + Format(b.author), ":" + Format(a.author));
    assert InboxEntry(a).member == Format(a.video) + (":" + Format(a.author));
    assert InboxEntry(b).member == Format(b.video) + (":" + Format(b.author));
  }

  lemma VisibleFrom(q: Query, sources: seq<Source>, i: nat, item: HotItem)
    requires i < |sources| && item in Candidates(q, sources[i], AtMost(sources[i].entries, MaxScore(q)))
    ensures item in Visible(q, sources)
  {
  }

  /** A video in the inbox, or in the outbox of a followed author, is among what the first page is cut from. */
  lemma IndexedIsVisible(ix: Index, q: Query, item: Item)
    requires Indexable(item) && item.author in q.followed && item.author > 0 && item.author != q.user && q.lastId == 0
    requires InboxEntry(item) in At(ix.inboxes, q.user) || OutboxEntry(item) in At(ix.outboxes, item.author)
    ensures HotItem(item.video, item.publishedAt.value) in Visible(q, Sources(ix, q))
  {
    MembersRoundTrip(item, 0);
    var k := 0;
    var entry := InboxEntry(item);
    if entry !in At(ix.inboxes, q.user) {
      k := OutboxIsRead(ix, q, q.followed, item.author);
      k, entry := k + 1, OutboxEntry(item);
    }
    var src := Sources(ix, q)[k];
    AtMostAll(src.entries, None);
    CandidatesInclude(q, src, src.entries, entry);
    VisibleFrom(q, Sources(ix, q), k, HotItem(item.video, item.publishedAt.value));
  }

  lemma {:induction false} OutboxIsRead(ix: Index, q: Query, authors: seq<Id>, author: Id) returns (k: nat)
    requires author in authors && author > 0 && author != q.user && At(ix.outboxes, author) != []
    ensures k < |Outboxes(ix, q, authors)| && Outboxes(ix, q, authors)[k] == Source(false, author, At(ix.outboxes, author))
  {
    var n := |authors| - 1;
    if author in authors[..n] {
      k := OutboxIsRead(ix, q, authors[..n], author);
    } else {
      k := |Outboxes(ix, q, authors)| - 1;
    }
  }
}
