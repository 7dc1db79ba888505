/** Two families of runs after which a reader of the follow feed never gets to see a video, one for every page
    size: videos of one moment whose IDs differ in length, and an inbox headed by authors no longer followed. */
module LostVideos {
  import opened Ranking
  import opened Text
  import opened SortedSet
  import opened FollowIndex
  import opened FollowPage
  import opened FollowFeed
  import opened FollowMiss
  import opened FollowLoss
  import opened FollowWalk

  // ------------------------------------------------------------------ ties that lose a video

  /** Pushes to an author's outbox, one video after another. */
  function PushAll(items: seq<Item>): (r: seq<Op>)
    ensures |r| == |items| && forall i :: 0 <= i < |r| ==> r[i] == PushOutbox(items[i])
  {
    seq(|items|, i requires 0 <= i < |items| => PushOutbox(items[i]))
  }

  /** All of one author. */
  predicate Of(items: seq<Item>, author: Id) {
    author != 0 && forall i :: 0 <= i < |items| ==> Indexable(items[i]) && items[i].author == author
  }

  function OutboxEntries(items: seq<Item>, author: Id): set<Entry>
    requires Of(items, author)
  {
    set i | 0 <= i < |items| :: OutboxEntry(items[i])
  }

  lemma {:induction false} PushesTouchOneBox(items: seq<Item>, author: Id)
    requires Of(items, author)
    ensures Run(EMPTY, PushAll(items)).inboxes == map[] && Run(EMPTY, PushAll(items)).outboxes.Keys <= {author}
  {
    if items != [] {
      var n := |items| - 1;
      PushesTouchOneBox(items[..n], author);
      assert PushAll(items)[..n] == PushAll(items[..n]);
    }
  }

  lemma {:induction false} PushesAreHistory(items: seq<Item>, author: Id)
    requires Of(items, author)
    ensures OutboxHistory(PushAll(items), author) == OutboxEntries(items, author)
  {
    if items != [] {
      var n := |items| - 1;
      PushesAreHistory(items[..n], author);
      assert PushAll(items)[..n] == PushAll(items[..n]);
      OneMoreEntry(items, author);
    }
  }

  lemma OneMoreEntry(items: seq<Item>, author: Id)
    requires Of(items, author) && items != []
    ensures var n := |items| - 1; OutboxEntries(items, author) == OutboxEntries(items[..n], author) + {OutboxEntry(items[n])}
  {
    var n := |items| - 1;
    forall e | e in OutboxEntries(items, author)
      ensures e in OutboxEntries(items[..n], author) + {OutboxEntry(items[n])}
    {
      var i :| 0 <= i < |items| && OutboxEntry(items[i]) == e;
      if i < n { assert items[..n][i] == items[i]; }
    }
    forall e | e in OutboxEntries(items[..n], author) ensures e in OutboxEntries(items, author) {
      var i :| 0 <= i < n && OutboxEntry(items[..n][i]) == e;
      assert OutboxEntry(items[i]) == e;
    }
  }

  /** When no more is pushed than the outbox holds, it holds what was pushed. */
  lemma OutboxHoldsAll(items: seq<Item>, author: Id, z: seq<Entry>)
    requires Of(items, author) && ZSet(z) && |z| <= OUTBOX_MAX && Elems(z) == OutboxEntries(items, author)
    ensures At(Run(EMPTY, PushAll(items)).outboxes, author) == z
  {
    PushesAreHistory(items, author);
    OutboxIsTop(PushAll(items), author);
    AboveIsTotal();
    DistinctCard(Above, z);
    assert Highest(Elems(z), OUTBOX_MAX) == Elems(z);
    RankedUnique(Above, At(Run(EMPTY, PushAll(items)).outboxes, author), z);
  }

  const AUTHOR: Id := 7
  const READER: Id := 1
  const MOMENT := 5

  /** n videos with three-digit IDs counting down from 999, and the video 1000, all of one moment. */
  function TiedItems(n: nat): (r: seq<Item>)
    requires n <= 499
    ensures |r| == n + 1 && r[n] == Item(1000, AUTHOR, Some(MOMENT))
    ensures forall i :: 0 <= i < n ==> r[i] == Item(999 - i, AUTHOR, Some(MOMENT))
  {
    seq(n, i requires 0 <= i < n => Item(999 - i, AUTHOR, Some(MOMENT))) + [Item(1000, AUTHOR, Some(MOMENT))]
  }

  function TiedEntries(n: nat): (r: seq<Entry>)
    requires n <= 499
    ensures |r| == n + 1 && forall i :: 0 <= i <= n ==> r[i] == OutboxEntry(TiedItems(n)[i])
  {
    seq(n + 1, i requires 0 <= i <= n => OutboxEntry(TiedItems(n)[i]))
  }

  lemma ThreeDigits(id: nat)
    requires 500 <= id <= 999
    ensures |Format(id)| == 3 && Format(id)[0] >= '5'
  {
    assert Format(id / 100) == [DigitOf(id / 100)];
    assert Format(id / 10) == Format(id / 100) + [DigitOf(id / 10 % 10)];
    assert Format(id) == Format(id / 10) + [DigitOf(id % 10)];
  }

  lemma Thousand()
    ensures Format(1000)[0] == '1'
  {
    assert Format(1) == "1" && Format(10) == Format(1) + "0" && Format(100) == Format(10) + "0" && Format(1000) == Format(100) + "0";
  }

  /** Redis lists 1000 after all of them. */
  lemma TiesStand(n: nat, i: nat, j: nat)
    requires n <= 499 && i < j <= n
    ensures Above(TiedEntries(n)[i], TiedEntries(n)[j]) && TiedEntries(n)[i].member != TiedEntries(n)[j].member
  {
    ThreeDigits(999 - i);
    if j < n {
      ThreeDigits(999 - j);
      ValueOfFormat(999 - i);
      ValueOfFormat(999 - j);
      SameLengthOrder(Format(999 - j), Format(999 - i));
    } else {
      Thousand();
    }
  }

  lemma TiedIsZSet(n: nat)
    requires n <= 499
    ensures ZSet(TiedEntries(n))
    ensures Elems(TiedEntries(n)) == OutboxEntries(TiedItems(n), AUTHOR)
  {
    var z := TiedEntries(n);
    forall i, j | 0 <= i < j < |z| ensures Above(z[i], z[j]) && z[i].member != z[j].member { TiesStand(n, i, j); }
    forall a, b | a in Elems(z) && b in Elems(z) && a.member == b.member ensures a == b {
      var i :| 0 <= i < |z| && z[i] == a;
      var j :| 0 <= j < |z| && z[j] == b;
    }
    forall i | 0 <= i < |z| ensures z[i] == OutboxEntry(TiedItems(n)[i]) {}
  }

  // ------------------------------------------------------------------ the reader of them

  function TiedWorld(n: nat): World
    requires n <= 499
  {
    World(Run(EMPTY, PushAll(TiedItems(n))), map id | id in TiedIds(n) :: Row(AUTHOR, MOMENT, true), [AUTHOR])
  }

  function TiedIds(n: nat): set<Id>
    requires n <= 499
  {
    set i | 0 <= i < |TiedItems(n)| :: TiedItems(n)[i].video
  }

  function AtMoment(id: Id): nat { MOMENT }

  function TiedSource(n: nat): Source
    requires n <= 499
  {
    Source(false, AUTHOR, TiedEntries(n))
  }

  lemma TiedOutbox(n: nat)
    requires n <= 499
    ensures At(TiedWorld(n).ix.outboxes, AUTHOR) == TiedEntries(n)
    ensures TiedWorld(n).ix.inboxes == map[] && TiedWorld(n).ix.outboxes.Keys <= {AUTHOR}
  {
    TiedIsZSet(n);
    OutboxHoldsAll(TiedItems(n), AUTHOR, TiedEntries(n));
    PushesTouchOneBox(TiedItems(n), AUTHOR);
  }

  lemma TiedIsConsistent(n: nat)
    requires n <= 499
    ensures Consistent(TiedWorld(n), AtMoment)
  {
    TiedOutbox(n);
    var w := TiedWorld(n);
    forall a, e | a in w.ix.outboxes && e in w.ix.outboxes[a] ensures Dated(e, false, a, AtMoment) {
      assert e in TiedEntries(n);
    }
  }

  lemma TiedIsAlone(n: nat)
    requires n <= 499
    ensures Alone(TiedWorld(n).ix, Query(READER, [AUTHOR], 0, 0, 0), TiedSource(n))
  {
    TiedOutbox(n);
    var q, ix := Query(READER, [AUTHOR], 0, 0, 0), TiedWorld(n).ix;
    assert [AUTHOR][..0] == [];
    assert Outboxes(ix, q, []) == [];
    assert Outboxes(ix, q, [AUTHOR]) == [TiedSource(n)];
    assert Sources(ix, q) == [Source(true, 0, []), TiedSource(n)];
    assert Sources(ix, q)[1] in Sources(ix, q);
  }

  function TiedShown(n: nat): (r: seq<HotItem>)
    requires n <= 499
    ensures |r| == n + 1 && forall i :: 0 <= i <= n ==> r[i] == HotItem(TiedItems(n)[i].video, MOMENT)
  {
    seq(n + 1, i requires 0 <= i <= n => HotItem(TiedItems(n)[i].video, MOMENT))
  }

  lemma TiedCandidate(n: nat, i: nat)
    requires i <= n <= 499
    ensures Candidate(First([AUTHOR]), TiedSource(n), TiedEntries(n)[i]) == Some(TiedShown(n)[i])
  {
    MembersRoundTrip(TiedItems(n)[i], AUTHOR);
  }

  lemma {:induction false} TiedCandidates(n: nat, m: nat)
    requires n <= 499 && m <= n + 1
    ensures Candidates(First([AUTHOR]), TiedSource(n), TiedEntries(n)[..m]) == TiedShown(n)[..m]
  {
    if m > 0 {
      TiedCandidates(n, m - 1);
      assert TiedEntries(n)[..m][..m - 1] == TiedEntries(n)[..m - 1];
      TiedCandidate(n, m - 1);
    }
  }

  lemma TiedIsOvertaken(n: nat)
    requires CANDIDATE_EXTRA < n <= 499
    ensures ItemsOf([AUTHOR], TiedSource(n)) == TiedShown(n) && DistinctIds(TiedShown(n)) && Overtaken(TiedShown(n), n)
  {
    TiedCandidates(n, n + 1);
    assert TiedEntries(n)[..n + 1] == TiedEntries(n) && TiedShown(n)[..n + 1] == TiedShown(n);
    TiedAreDistinct(n);
    LastIsNewest(TiedShown(n), n);
  }

  lemma TiedAreDistinct(n: nat)
    requires n <= 499
    ensures DistinctIds(TiedShown(n))
  {
  }

  lemma LastIsNewest(items: seq<HotItem>, n: nat)
    requires DistinctIds(items) && CANDIDATE_EXTRA < n < |items| && forall i :: 0 <= i < n ==> Newer(items[n], items[i])
    ensures Overtaken(items, n)
  {
    DistinctSize(items[..n]);
    forall y | y in Elems(items[..n]) ensures y in OlderBefore(items, n, items[n]) {
      var i :| 0 <= i < n && items[..n][i] == y;
      assert items[i] == y;
    }
    assert OlderBefore(items, n, items[n]) == Elems(items[..n]);
  }

  lemma TiedIsOneSource(n: nat)
    requires CANDIDATE_EXTRA < n <= 499
    ensures OneSource(TiedWorld(n), READER, AtMoment, TiedSource(n))
  {
    TiedIsConsistent(n);
    TiedIsZSet(n);
    TiedIsAlone(n);
    TiedIsOvertaken(n);
    forall item | item in TiedShown(n) ensures Out(TiedWorld(n), item.id) {
      var i :| 0 <= i < |TiedShown(n)| && TiedShown(n)[i] == item;
    }
  }

  lemma ThousandIsThere(n: nat)
    requires n <= 499
    ensures OutboxEntry(Item(1000, AUTHOR, Some(MOMENT))) in At(TiedWorld(n).ix.outboxes, AUTHOR)
            && Out(TiedWorld(n), 1000)
  {
    TiedOutbox(n);
    assert TiedEntries(n)[n] in TiedEntries(n);
  }

  /** At every page size up to 479: let an author whose videos are pulled publish limit + 20 videos with IDs up to
      999 and the video 1000 in one moment. The first page ends with an older one, and no walk that starts on it
      ever shows the video 1000, which stands in the outbox and is out. */
  lemma TiesAcrossWidthsLoseAVideo(worlds: nat -> World, limit: nat)
    requires 0 < limit <= 479 && worlds(0) == TiedWorld(limit + CANDIDATE_EXTRA)
    requires forall k :: Consistent(worlds(k), AtMoment)
    ensures OutboxEntry(Item(1000, AUTHOR, Some(MOMENT))) in At(worlds(0).ix.outboxes, AUTHOR) && Out(worlds(0), 1000)
    ensures PagesDescend(Feed(worlds, READER, limit), AtMoment)
    ensures !IsShown(Walk(Feed(worlds, READER, limit), AtMoment, 0, 0, 0), 1000)
  {
    ThousandIsThere(limit + CANDIDATE_EXTRA);
    TiedIsPassedBy(limit);
    PassedByFeedIsNeverShown(worlds, READER, AtMoment, limit, 1000);
  }

  lemma TiedIsPassedBy(limit: nat)
    requires 0 < limit <= 479
    ensures PassedBy(FeedPage(TiedWorld(limit + CANDIDATE_EXTRA), READER, limit, 0, 0), AtMoment, 1000)
  {
    var n := limit + CANDIDATE_EXTRA;
    TiedIsOneSource(n);
    TiedIsOvertaken(n);
    OvertakenIsPassedBy(Request(TiedWorld(n), READER, limit, 0, 0), AtMoment, TiedSource(n), n);
  }

  // ------------------------------------------------------------------ an inbox of authors left

  const LEFT: Id := 9
  const SMALL: Id := 7
  const BIG: Id := 8

  /** n videos of an author the reader has since unfollowed, newest first, and the video 10 of an author followed. */
  function StaleItems(n: nat): (r: seq<Item>)
    requires n < 1000
    ensures |r| == n + 1 && r[n] == Item(10, SMALL, Some(8))
    ensures forall i :: 0 <= i < n ==> r[i] == Item(2000 + i, LEFT, Some(5000 - i))
  {
    seq(n, i requires 0 <= i < n => Item(2000 + i, LEFT, Some(5000 - i))) + [Item(10, SMALL, Some(8))]
  }

  function StaleEntries(n: nat): (r: seq<Entry>)
    requires n < 1000
    ensures |r| == n + 1 && forall i :: 0 <= i <= n ==> r[i] == InboxEntry(StaleItems(n)[i])
  {
    seq(n + 1, i requires 0 <= i <= n => InboxEntry(StaleItems(n)[i]))
  }

  /** A video of a big author followed, older than all of them. */
  const PULLED := Item(11, BIG, Some(3))

  /** Each video pushed to the reader's inbox, and then the pulled one to its author's outbox. */
  function StaleOps(n: nat): seq<Op>
    requires n < 1000
  {
    InboxPushes(StaleItems(n)) + [PushOutbox(PULLED)]
  }

  function InboxPushes(items: seq<Item>): (r: seq<Op>)
    ensures |r| == |items| && forall i :: 0 <= i < |r| ==> r[i] == PushInbox(READER, items[i])
  {
    seq(|items|, i requires 0 <= i < |items| => PushInbox(READER, items[i]))
  }

  lemma {:induction false} InboxPushesAreHistory(items: seq<Item>)
    requires forall i :: 0 <= i < |items| ==> Indexable(items[i])
    ensures InboxHistory(InboxPushes(items), READER) == Offered(items)
    ensures Run(EMPTY, InboxPushes(items)).outboxes == map[] && Run(EMPTY, InboxPushes(items)).inboxes.Keys <= {READER}
  {
    if items != [] {
      var n := |items| - 1;
      InboxPushesAreHistory(items[..n]);
      assert InboxPushes(items)[..n] == InboxPushes(items[..n]);
      OfferedSnoc(items);
    }
  }

  lemma StaleIsZSet(n: nat)
    requires n < 1000
    ensures ZSet(StaleEntries(n)) && Elems(StaleEntries(n)) == Offered(StaleItems(n))
  {
    var z := StaleEntries(n);
    forall i, j | 0 <= i < j < |z| ensures Above(z[i], z[j]) {}
    StaleMembers(n);
    forall i | 0 <= i < |z| ensures Indexable(StaleItems(n)[i]) && z[i] == InboxEntry(StaleItems(n)[i]) {}
    forall e | e in Offered(StaleItems(n)) ensures e in z {
      var i :| 0 <= i < |StaleItems(n)| && Indexable(StaleItems(n)[i]) && InboxEntry(StaleItems(n)[i]) == e;
      assert z[i] == e;
    }
  }

  lemma StaleMembers(n: nat)
    requires n < 1000
    ensures OneScore(Elems(StaleEntries(n)))
  {
    var z := StaleEntries(n);
    forall a, b | a in Elems(z) && b in Elems(z) && a.member == b.member ensures a == b {
      var i :| 0 <= i < |z| && z[i] == a;
      var j :| 0 <= j < |z| && z[j] == b;
      MembersRoundTrip(StaleItems(n)[i], 0);
      MembersRoundTrip(StaleItems(n)[j], 0);
    }
  }

  lemma StaleInbox(n: nat)
    requires n < 1000
    ensures var ix := Run(EMPTY, InboxPushes(StaleItems(n)));
            At(ix.inboxes, READER) == StaleEntries(n) && ix.inboxes.Keys <= {READER} && ix.outboxes == map[]
  {
    var z := StaleEntries(n);
    StaleIsZSet(n);
    InboxPushesAreHistory(StaleItems(n));
    InboxIsTop(InboxPushes(StaleItems(n)), READER);
    AboveIsTotal();
    DistinctCard(Above, z);
    assert Highest(Elems(z), INBOX_MAX) == Elems(z);
    RankedUnique(Above, At(Run(EMPTY, InboxPushes(StaleItems(n))).inboxes, READER), z);
  }

  function CreatedAt(id: Id): nat {
    if id == 10 then 8 else if id == 11 then 3 else if 2000 <= id < 3000 then 7000 - id else 0
  }

  function StaleWorld(n: nat): World
    requires n < 1000
  {
    World(Run(EMPTY, StaleOps(n)), map[10 := Row(SMALL, 8, true), 11 := Row(BIG, 3, true)], [SMALL, BIG])
  }

  const PULLED_ENTRIES := [Entry(3, "11")]

  lemma ParseEleven()
    ensures Format(11) == "11" && ParseUint("11") == Some(11)
  {
    assert Format(1) == "1" && Format(11) == Format(1) + "1";
    ParseFormat(11);
  }

  lemma StaleIndex(n: nat)
    requires n < 1000
    ensures var ix := StaleWorld(n).ix;
            && At(ix.inboxes, READER) == StaleEntries(n) && ix.inboxes.Keys <= {READER}
            && ix.outboxes == map[BIG := PULLED_ENTRIES]
  {
    var ops := StaleOps(n);
    StaleInbox(n);
    ParseEleven();
    assert ops[..|ops| - 1] == InboxPushes(StaleItems(n));
    assert ops[|ops| - 1] == PushOutbox(PULLED);
    assert ZAdd([], OutboxEntry(PULLED)) == PULLED_ENTRIES;
  }

  lemma StaleEntryIsDated(n: nat, i: nat)
    requires i <= n < 1000
    ensures Dated(StaleEntries(n)[i], true, 0, CreatedAt)
  {
    MembersRoundTrip(StaleItems(n)[i], 0);
  }

  lemma PulledIsDated()
    ensures Dated(PULLED_ENTRIES[0], false, BIG, CreatedAt)
  {
    ParseEleven();
  }

  lemma StaleIsConsistent(n: nat)
    requires n < 1000
    ensures Consistent(StaleWorld(n), CreatedAt)
  {
    StaleIndex(n);
    var w := StaleWorld(n);
    forall u, e | u in w.ix.inboxes && e in w.ix.inboxes[u] ensures Dated(e, true, 0, CreatedAt) {
      var i :| 0 <= i < |StaleEntries(n)| && StaleEntries(n)[i] == e;
      StaleEntryIsDated(n, i);
    }
    forall a, e | a in w.ix.outboxes && e in w.ix.outboxes[a] ensures Dated(e, false, a, CreatedAt) {
      PulledIsDated();
    }
  }

  function StaleQuery(n: nat): Query { Query(READER, [SMALL, BIG], 0, 0, n) }

  lemma StaleSources(n: nat)
    requires 0 < n < 1000
    ensures Sources(StaleWorld(n).ix, StaleQuery(n)) == [Source(true, 0, StaleEntries(n)), Source(false, BIG, PULLED_ENTRIES)]
  {
    StaleIndex(n);
    var q, ix := StaleQuery(n), StaleWorld(n).ix;
    assert [SMALL, BIG][..1] == [SMALL] && [SMALL][..0] == [];
    assert Outboxes(ix, q, []) == [];
    assert Outboxes(ix, q, [SMALL]) == [];
    assert Outboxes(ix, q, [SMALL, BIG]) == [Source(false, BIG, PULLED_ENTRIES)];
  }

  lemma {:induction false} StaleCandidates(n: nat, m: nat)
    requires 0 < n < 1000 && m <= n
    ensures Candidates(StaleQuery(n), Source(true, 0, StaleEntries(n)), StaleEntries(n)[..m]) == []
  {
    if m > 0 {
      StaleCandidates(n, m - 1);
      assert StaleEntries(n)[..m][..m - 1] == StaleEntries(n)[..m - 1];
      MembersRoundTrip(StaleItems(n)[m - 1], 0);
    }
  }

  lemma StaleFetch(n: nat)
    requires 0 < n < 1000
    ensures Candidates(StaleQuery(n), Source(true, 0, StaleEntries(n)), Fetch(StaleQuery(n), Source(true, 0, StaleEntries(n)))) == []
  {
    AtMostAll(StaleEntries(n), None);
    assert Fetch(StaleQuery(n), Source(true, 0, StaleEntries(n))) == StaleEntries(n)[..n];
    StaleCandidates(n, n);
  }

  lemma PulledFetch(n: nat)
    requires 0 < n < 1000
    ensures var q, src := StaleQuery(n), Source(false, BIG, PULLED_ENTRIES);
            Fetch(q, src) == PULLED_ENTRIES && Candidates(q, src, Fetch(q, src)) == [HotItem(11, 3)]
  {
    AtMostAll(PULLED_ENTRIES, None);
    ParseEleven();
    assert PULLED_ENTRIES[..0] == [];
  }

  lemma FetchedOfTwo(q: Query, a: Source, b: Source)
    requires q.limit > 0
    ensures Fetched(q, [a, b]) == Candidates(q, a, Fetch(q, a)) + Candidates(q, b, Fetch(q, b))
  {
    assert [a, b][..1] == [a] && [a][..0] == [];
    assert Fetched(q, []) == [];
    assert Fetched(q, [a]) == Candidates(q, a, Fetch(q, a));
  }

  lemma PageIs(ix: Index, q: Query, sources: seq<Source>, k: nat, items: seq<HotItem>)
    requires q.user != 0 && q.limit > 0 && Sources(ix, q) == sources && k < |sources| && Fetch(q, sources[k]) != []
    requires Fetched(q, sources) == items
    ensures Page(ix, q) == Some(Take(Newest(Elems(Dedup(items))), q.limit))
  {
    assert sources[k] in sources;
  }

  lemma StalePage(n: nat)
    requires 0 < n < 1000
    ensures Page(StaleWorld(n).ix, StaleQuery(n)) == Some([HotItem(11, 3)])
  {
    var inbox, outbox := Source(true, 0, StaleEntries(n)), Source(false, BIG, PULLED_ENTRIES);
    StaleSources(n);
    StaleFetch(n);
    PulledFetch(n);
    FetchedOfTwo(StaleQuery(n), inbox, outbox);
    PageIs(StaleWorld(n).ix, StaleQuery(n), [inbox, outbox], 1, [HotItem(11, 3)]);
    OnlyOne(HotItem(11, 3), n);
  }

  lemma OnlyOne(item: HotItem, n: nat)
    requires n > 0
    ensures Take(Newest(Elems(Dedup([item]))), n) == [item]
  {
    assert [item][..0] == [] && Dedup([item]) == [item];
    NewerIsTotal();
    RankedUnique(Newer, Newest(Elems([item])), [item]);
  }

  lemma StaleIsKept(r: Request)
    requires 0 < r.shown < 980 && r == Request(StaleWorld(r.shown + CANDIDATE_EXTRA), READER, r.shown, 0, 0)
    ensures Kept(r) == {HotItem(11, 3)}
  {
    assert QueryFor(r) == StaleQuery(r.shown + CANDIDATE_EXTRA);
    StalePage(r.shown + CANDIDATE_EXTRA);
  }

  lemma StaleInReach(r: Request)
    requires 0 < r.shown < 980 && r == Request(StaleWorld(r.shown + CANDIDATE_EXTRA), READER, r.shown, 0, 0)
    ensures HotItem(10, 8) in InReach(r)
  {
    var n := r.shown + CANDIDATE_EXTRA;
    StaleIndex(n);
    assert StaleEntries(n)[n] in StaleEntries(n);
    IndexedIsVisible(r.w.ix, QueryFor(r), Item(10, SMALL, Some(8)));
  }

  /** Of what the first page is cut from, which is the pulled video alone, nothing is newer than the video 10. */
  lemma StaleIsPassedBy(r: Request)
    requires 0 < r.shown < 980 && r == Request(StaleWorld(r.shown + CANDIDATE_EXTRA), READER, r.shown, 0, 0)
    ensures PassedBy(FeedFor(r), CreatedAt, 10)
  {
    StaleIsKept(r);
    StaleInReach(r);
    StaleIsConsistent(r.shown + CANDIDATE_EXTRA);
    assert NewerIn({HotItem(11, 3)}, HotItem(10, 8)) == {};
    UnreachedIsPassedBy(r, CreatedAt, HotItem(10, 8));
  }

  /** At every page size below 980: let the newest limit + 20 entries of an inbox be of an author since
      unfollowed, the next a video of an author followed, and let a big author followed have an older one. The
      first page is the older one alone, and no walk that starts on it ever shows the newer. */
  lemma FilteredEntriesLoseAVideo(worlds: nat -> World, limit: nat)
    requires 0 < limit < 980 && worlds(0) == StaleWorld(limit + CANDIDATE_EXTRA)
    requires forall k :: Consistent(worlds(k), CreatedAt)
    ensures InboxEntry(Item(10, SMALL, Some(8))) in At(worlds(0).ix.inboxes, READER) && Out(worlds(0), 10)
            && SMALL in worlds(0).following
    ensures PagesDescend(Feed(worlds, READER, limit), CreatedAt)
    ensures !IsShown(Walk(Feed(worlds, READER, limit), CreatedAt, 0, 0, 0), 10)
  {
    var n := limit + CANDIDATE_EXTRA;
    StaleIndex(n);
    assert StaleEntries(n)[n] in StaleEntries(n);
    StaleIsPassedBy(Request(worlds(0), READER, limit, 0, 0));
    PassedByFeedIsNeverShown(worlds, READER, CreatedAt, limit, 10);
  }
}
