/** What a page of the index misses. It is cut from the first `shown + extra` entries that Redis lists of a
    source; an entry behind the cut that is newer than the last item shown is below no later cursor, and so
    lost. Redis lists equal scores by member bytes, not by ID. */
module FollowMiss {
  import opened Ranking
  import opened Text
  import opened SortedSet
  import opened FollowIndex
  import opened FollowPage

  // ------------------------------------------------------------------ cutting a list that is not quite in order

  /** The items before position n that are older than x. */
  function OlderBefore(s: seq<HotItem>, n: nat, x: HotItem): set<HotItem>
    requires n <= |s|
  {
    set y | y in s[..n] && Newer(x, y)
  }

  /** No item stands behind more than `extra` older ones. */
  ghost predicate FewOlderBefore(s: seq<HotItem>, extra: nat) {
    forall j :: 0 <= j < |s| ==> |OlderBefore(s, j, s[j])| <= extra
  }

  predicate DistinctIds(s: seq<HotItem>) { forall i, j :: 0 <= i < j < |s| ==> s[i].id != s[j].id }

  lemma {:induction false} DistinctSize(s: seq<HotItem>)
    requires DistinctIds(s)
    ensures |Elems(s)| == |s| && |Newest(Elems(s))| == |s|
  {
    if s == [] {
      assert Elems(s) == {};
    } else {
      var n := |s| - 1;
      DistinctSize(s[..n]);
      assert s == s[..n] + [s[n]];
      assert Elems(s) == Elems(s[..n]) + {s[n]};
    }
    NewerIsTotal();
    DistinctCard(Newer, Newest(Elems(s)));
  }

  /** What of a ranked list is older than x. */
  function OlderIn(r: seq<HotItem>, x: HotItem): set<HotItem> { set y | y in r && Newer(x, y) }

  /** The m first of a ranked list all come before x exactly when at most the others are older than x. */
  lemma CutCovers(r: seq<HotItem>, m: nat, x: HotItem)
    requires Ranked(Newer, r) && 0 < m <= |r| && x !in r
    ensures Newer(r[m - 1], x) <==> |OlderIn(r, x)| <= |r| - m
  {
    NewerIsTotal();
    if Newer(r[m - 1], x) {
      forall k | 0 <= k < m ensures !Newer(x, r[k]) { assert k < m - 1 ==> Newer(r[k], r[m - 1]); }
      forall y | y in OlderIn(r, x) ensures y in Elems(r[m..]) {
        var i :| 0 <= i < |r| && r[i] == y;
        assert r[m..][i - m] == y;
      }
      TailCard(r, m);
      SubsetCard(OlderIn(r, x), Elems(r[m..]));
    } else {
      forall y | y in Elems(r[m - 1..]) ensures y in OlderIn(r, x) {
        var i :| 0 <= i < |r[m - 1..]| && r[m - 1..][i] == y;
        assert y == r[m - 1 + i] && (i > 0 ==> Newer(r[m - 1], r[m - 1 + i]));
      }
      TailCard(r, m - 1);
      SubsetCard(Elems(r[m - 1..]), OlderIn(r, x));
    }
  }

  lemma TailCard(r: seq<HotItem>, m: nat)
    requires Ranked(Newer, r) && m <= |r|
    ensures |Elems(r[m..])| == |r| - m
  {
    NewerIsTotal();
    forall i, j | 0 <= i < j < |r[m..]| ensures Newer(r[m..][i], r[m..][j]) { assert Newer(r[m + i], r[m + j]); }
    DistinctCard(Newer, r[m..]);
  }

  /** What of these is newer than x. */
  function NewerIn(items: set<HotItem>, x: HotItem): set<HotItem> { set y | y in items && Newer(y, x) }

  function Least(a: nat, b: nat): (r: nat)
    ensures r <= a && r <= b && (r == a || r == b)
  {
    if a < b then a else b
  }

  /** On the page, or older than its last item, so that the next request can still come to it. */
  predicate Reached(top: seq<HotItem>, v: HotItem) { v in top || (top != [] && Newer(top[|top| - 1], v)) }

  /** The newest `shown` of some items reach v exactly when v is one of them, or enough of them are newer. */
  ghost predicate Suffice(items: set<HotItem>, shown: nat, v: HotItem) {
    v in items || (items != {} && |NewerIn(items, v)| >= Least(shown, |items|))
  }

  lemma CutReachesExactlyWhatSuffices(items: set<HotItem>, shown: nat, v: HotItem)
    requires shown > 0
    ensures Reached(Take(Newest(items), shown), v) <==> Suffice(items, shown, v)
  {
    var r := Newest(items);
    assert v in r <==> v in items;
    if v in items {
      var i :| 0 <= i < |r| && r[i] == v;
      if i < shown { assert Take(r, shown)[i] == v; }
    } else if items != {} {
      NewerIsTotal();
      DistinctCard(Newer, r);
      assert r != [];
      var m := Least(shown, |r|);
      CutCovers(r, m, v);
      OlderOrNewer(items, v);
      assert OlderIn(r, v) == set y | y in items && Newer(v, y);
      assert Take(r, shown) == r[..m] && forall x :: x in r[..m] ==> x in r;
    }
  }

  lemma OlderOrNewer(items: set<HotItem>, v: HotItem)
    requires v !in items
    ensures |NewerIn(items, v)| + |set y | y in items && Newer(v, y)| == |items|
  {
    var older := set y | y in items && Newer(v, y);
    assert items == NewerIn(items, v) + older;
    assert NewerIn(items, v) * older == {};
  }

  lemma OlderGrows(s: seq<HotItem>, n: nat, m: nat, x: HotItem)
    requires n <= m <= |s|
    ensures |OlderBefore(s, n, x)| <= |OlderBefore(s, m, x)| <= m
  {
    forall y | y in OlderBefore(s, n, x) ensures y in OlderBefore(s, m, x) {
      var i :| 0 <= i < n && s[..n][i] == y;
      assert s[..m][i] == y;
    }
    SubsetCard(OlderBefore(s, n, x), OlderBefore(s, m, x));
    assert OlderBefore(s, m, x) <= Elems(s[..m]);
    SubsetCard(OlderBefore(s, m, x), Elems(s[..m]));
    ElemsAtMost(s[..m]);
  }

  lemma {:induction false} ElemsAtMost(s: seq<HotItem>)
    ensures |Elems(s)| <= |s|
  {
    if s == [] {
      assert Elems(s) == {};
    } else {
      var n := |s| - 1;
      ElemsAtMost(s[..n]);
      assert s == s[..n] + [s[n]];
      assert Elems(s) == Elems(s[..n]) + {s[n]};
    }
  }

  /** With nothing extra: the list is in order. */
  lemma NoneOlderBeforeIsRanked(s: seq<HotItem>)
    requires DistinctIds(s)
    ensures FewOlderBefore(s, 0) <==> Ranked(Newer, s)
  {
    NewerIsTotal();
    if FewOlderBefore(s, 0) {
      forall i, j | 0 <= i < j < |s| ensures Newer(s[i], s[j]) {
        assert OlderBefore(s, j, s[j]) == {};
        assert s[..j][i] == s[i] && s[i] in s[..j];
        assert s[i] !in OlderBefore(s, j, s[j]);
      }
    }
    if Ranked(Newer, s) {
      forall j | 0 <= j < |s| ensures |OlderBefore(s, j, s[j])| <= 0 {
        forall i | 0 <= i < j ensures !Newer(s[j], s[..j][i]) { assert Newer(s[i], s[j]); }
        assert OlderBefore(s, j, s[j]) == {};
      }
    }
  }

  // ------------------------------------------------------------------ one source, read alone

  /** A request without cursor. */
  function First(followed: seq<Id>): Query { Query(0, followed, 0, 0, 0) }

  /** What a source has for someone who follows these authors, in the source's order. */
  function ItemsOf(followed: seq<Id>, src: Source): seq<HotItem> { Candidates(First(followed), src, src.entries) }

  /** Every entry counts. */
  predicate AllKept(followed: seq<Id>, src: Source) { |ItemsOf(followed, src)| == |src.entries| }

  /** Reading on from a cursor leaves items out and adds none. */
  lemma {:induction false} DistinctBehindACursor(q: Query, src: Source, z: seq<Entry>, k: nat)
    requires k <= |z| && DistinctIds(Candidates(First(q.followed), src, z))
    ensures var all, left := Candidates(First(q.followed), src, z), Candidates(q, src, z[k..]);
            DistinctIds(left) && forall y :: y in left ==> y in all
  {
    if k < |z| {
      var n := |z| - 1;
      var all, left := Candidates(First(q.followed), src, z[..n]), Candidates(q, src, z[..n][k..]);
      assert z[k..][..|z[k..]| - 1] == z[..n][k..];
      var kept, item := Candidate(First(q.followed), src, z[n]), Candidate(q, src, z[n]);
      assert kept.Some? ==> Candidates(First(q.followed), src, z)[..|all|] == all;
      DistinctBehindACursor(q, src, z[..n], k);
      if item.Some? {
        assert kept == item;
        LeftBehind(all, left, item.value);
      }
    }
  }

  lemma LeftBehind(all: seq<HotItem>, left: seq<HotItem>, x: HotItem)
    requires DistinctIds(all + [x]) && DistinctIds(left) && forall y :: y in left ==> y in all
    ensures DistinctIds(left + [x])
  {
    forall i | 0 <= i < |left| ensures left[i].id != x.id {
      assert left[i] in all;
      var j :| 0 <= j < |all| && all[j] == left[i];
      assert (all + [x])[j].id != (all + [x])[|all|].id;
    }
  }

  lemma {:induction false} CandidatesAtFirst(q: Query, src: Source, z: seq<Entry>)
    requires q.lastId == 0
    ensures Candidates(q, src, z) == Candidates(First(q.followed), src, z)
  {
    if z != [] {
      CandidatesAtFirst(q, src, z[..|z| - 1]);
    }
  }

  lemma {:induction false} AllKeptPrefix(q: Query, src: Source, z: seq<Entry>, n: nat)
    requires n <= |z| && |Candidates(q, src, z)| == |z|
    ensures |Candidates(q, src, z[..n])| == n && Candidates(q, src, z[..n]) == Candidates(q, src, z)[..n]
  {
    var m := |z| - 1;
    if n <= m {
      AllKeptPrefix(q, src, z[..m], n);
      assert z[..m][..n] == z[..n];
    } else {
      assert z[..n] == z;
    }
  }

  // ------------------------------------------------------------------ a page of it

  /** The request reads this source, and nothing else that holds anything. */
  ghost predicate Alone(ix: Index, q: Query, src: Source) {
    src in Sources(ix, q) && forall other :: other in Sources(ix, q) ==> other == src || other.entries == []
  }

  lemma {:induction false} OutboxesSame(ix: Index, q: Query, p: Query, authors: seq<Id>)
    requires p.user == q.user
    ensures Outboxes(ix, p, authors) == Outboxes(ix, q, authors)
  {
    if authors != [] {
      OutboxesSame(ix, q, p, authors[..|authors| - 1]);
    }
  }

  function InView(q: Query, src: Source): seq<HotItem> { Candidates(q, src, AtMost(src.entries, MaxScore(q))) }

  lemma InViewIsHeld(q: Query, src: Source)
    requires ZSet(src.entries) && DistinctIds(ItemsOf(q.followed, src))
    ensures DistinctIds(InView(q, src)) && forall v :: v in InView(q, src) ==> v in ItemsOf(q.followed, src)
  {
    var k := AtMostIsTail(src.entries, MaxScore(q));
    DistinctBehindACursor(q, src, src.entries, k);
  }

  lemma FetchedAlone(ix: Index, q: Query, src: Source)
    requires q.limit > 0 && Alone(ix, q, src)
    ensures Elems(Fetched(q, Sources(ix, q))) == Elems(Candidates(q, src, Fetch(q, src)))
    ensures Visible(q, Sources(ix, q)) == Elems(InView(q, src))
  {
    var sources := Sources(ix, q);
    var k :| 0 <= k < |sources| && sources[k] == src;
    forall x | x in Fetched(q, sources) ensures x in Candidates(q, src, Fetch(q, src)) {
      FetchedFrom(q, sources, x);
      var i :| 0 <= i < |sources| && x in Candidates(q, sources[i], Fetch(q, sources[i]));
      assert sources[i] in sources;
    }
    forall x | x in Candidates(q, src, Fetch(q, src))
      ensures x in Fetched(q, sources) { FetchedIncludes(q, sources, k, x); }
    forall x | x in Visible(q, sources) ensures x in InView(q, src) {
      var i :| 0 <= i < |sources| && x in Candidates(q, sources[i], AtMost(sources[i].entries, MaxScore(q)));
      assert sources[i] in sources;
    }
    forall x | x in InView(q, src) ensures x in Visible(q, sources) { VisibleFrom(q, sources, k, x); }
  }

  /** The page is what was fetched of the source, in the right order. */
  lemma PageAlone(ix: Index, q: Query, src: Source)
    requires q.user != 0 && q.limit > 0 && Alone(ix, q, src) && DistinctIds(InView(q, src))
    ensures Page(ix, q).Some? <==> Fetch(q, src) != []
    ensures Page(ix, q).Some? ==> Page(ix, q).value == Newest(Elems(Candidates(q, src, Fetch(q, src))))
  {
    var got := Candidates(q, src, Fetch(q, src));
    FetchedAlone(ix, q, src);
    CandidatesPrefix(q, src, AtMost(src.entries, MaxScore(q)), |Fetch(q, src)|);
    assert got == InView(q, src)[..|got|];
    assert forall x :: x in Fetched(q, Sources(ix, q)) <==> x in Elems(Fetched(q, Sources(ix, q)));
    assert forall x :: x in got <==> x in Elems(got);
    DedupOfDistinct(Fetched(q, Sources(ix, q)), got);
    DistinctSize(got);
  }

  lemma DedupOfDistinct(items: seq<HotItem>, got: seq<HotItem>)
    requires DistinctIds(got) && forall x :: x in items <==> x in got
    ensures Elems(Dedup(items)) == Elems(got)
  {
    forall x | x in got ensures x in Dedup(items) {
      assert x in items;
      var k :| 0 <= k < |items| && items[k] == x;
      assert x.id in Ids(items);
      var i :| 0 <= i < |Dedup(items)| && Dedup(items)[i].id == x.id;
      SameItem(got, Dedup(items)[i], x);
    }
  }

  lemma SameItem(got: seq<HotItem>, a: HotItem, b: HotItem)
    requires DistinctIds(got) && a in got && b in got
    ensures a.id == b.id ==> a == b
  {
    var i :| 0 <= i < |got| && got[i] == a;
    var j :| 0 <= j < |got| && got[j] == b;
  }

  /** Of a page's items the feed shows the first `shown`. Everything in view is shown or still ahead. */
  ghost predicate MissesNothing(ix: Index, q: Query, shown: nat)
    requires Page(ix, q).Some?
  {
    forall v :: v in Visible(q, Sources(ix, q)) ==> Reached(Take(Page(ix, q).value, shown), v)
  }

  /** Of the first n items at most max(0, n - shown) are older than item j. */
  predicate FewOlder(s: seq<HotItem>, n: nat, shown: nat, j: nat)
    requires n <= |s| && j < |s|
  {
    n > 0 && |OlderBefore(s, n, s[j])| <= (if shown < n then n - shown else 0)
  }

  lemma LeftOutExactlyWhenFewOlder(s: seq<HotItem>, n: nat, shown: nat, j: nat)
    requires DistinctIds(s) && n <= j < |s|
    ensures Suffice(Elems(s[..n]), shown, s[j]) <==> FewOlder(s, n, shown, j)
  {
    DistinctSize(s[..n]);
    assert s[j] !in s[..n];
    OlderOrNewer(Elems(s[..n]), s[j]);
    assert OlderBefore(s, n, s[j]) == set y | y in Elems(s[..n]) && Newer(s[j], y);
  }

  /** The items of a list are reached by the newest of its first n if and only if none of the others is newer
      than too many of those. */
  lemma ListIsReachedExactlyWhenFewOlder(s: seq<HotItem>, n: nat, shown: nat)
    requires DistinctIds(s) && n <= |s| && shown > 0
    ensures (forall v :: v in s ==> Suffice(Elems(s[..n]), shown, v)) <==> forall j :: n <= j < |s| ==>
            FewOlder(s, n, shown, j)
  {
    forall j | n <= j < |s| ensures Suffice(Elems(s[..n]), shown, s[j]) <==> FewOlder(s, n, shown, j) {
      LeftOutExactlyWhenFewOlder(s, n, shown, j);
    }
    if forall j :: n <= j < |s| ==> FewOlder(s, n, shown, j) {
      forall v | v in s ensures Suffice(Elems(s[..n]), shown, v) {
        var j :| 0 <= j < |s| && s[j] == v;
        if j < n { assert s[..n][j] == v; }
      }
    }
    if forall v :: v in s ==> Suffice(Elems(s[..n]), shown, v) {
      forall j | n <= j < |s| ensures FewOlder(s, n, shown, j) { assert s[j] in s; }
    }
  }

  /** How many items the filters keep of what is fetched. */
  function KeptOf(q: Query, src: Source): nat
    requires q.limit > 0
  {
    |Candidates(q, src, Fetch(q, src))|
  }

  lemma KeptIsInView(q: Query, src: Source)
    requires q.limit > 0
    ensures KeptOf(q, src) <= |InView(q, src)| && Candidates(q, src, Fetch(q, src)) == InView(q, src)[..KeptOf(q, src)]
  {
    CandidatesPrefix(q, src, AtMost(src.entries, MaxScore(q)), |Fetch(q, src)|);
  }

  /** The exact condition, for a source read alone at any page size and behind any cursor, whatever the filters
      drop: a page misses nothing if and only if, of the items kept of what was fetched, each item in view that
      was not fetched has at most as many older ones as are not shown. */
  lemma PageMissesNothingExactlyWhenFewOlder(ix: Index, q: Query, src: Source, shown: nat)
    requires q.user != 0 && q.limit > 0 && shown > 0 && Alone(ix, q, src) && DistinctIds(InView(q, src))
             && Page(ix, q).Some?
    ensures KeptOf(q, src) <= |InView(q, src)|
    ensures MissesNothing(ix, q, shown) <==>
              forall j :: KeptOf(q, src) <= j < |InView(q, src)| ==> FewOlder(InView(q, src), KeptOf(q, src), shown, j)
  {
    var all, n := InView(q, src), KeptOf(q, src);
    KeptIsInView(q, src);
    assert Page(ix, q).value == Newest(Elems(all[..n])) by { PageAlone(ix, q, src); }
    assert Visible(q, Sources(ix, q)) == Elems(all) by { FetchedAlone(ix, q, src); }
    ListIsReachedExactlyWhenFewOlder(all, n, shown);
    forall v { CutReachesExactlyWhatSuffices(Elems(all[..n]), shown, v); }
  }

  /** Nothing is missed while the filters drop at most d of what is fetched and no item stands behind more than
      the remaining extra - d older ones. */
  lemma NothingMissed(ix: Index, q: Query, src: Source, shown: nat, extra: nat, d: nat)
    requires q.user != 0 && shown > 0 && q.limit == shown + extra && d <= extra && Alone(ix, q, src)
    requires Dropped(q, src) <= d && DistinctIds(InView(q, src)) && FewOlderBefore(InView(q, src), extra - d)
    ensures Page(ix, q).Some? ==> MissesNothing(ix, q, shown)
  {
    if Page(ix, q).Some? {
      var all, n := InView(q, src), KeptOf(q, src);
      PageMissesNothingExactlyWhenFewOlder(ix, q, src, shown);
      forall j | n <= j < |all| ensures FewOlder(all, n, shown, j) {
        OlderGrows(all, n, j, all[j]);
        assert |OlderBefore(all, j, all[j])| <= extra - d;
      }
    }
  }

  function FirstQuery(user: Id, followed: seq<Id>, limit: nat): Query { Query(user, followed, 0, 0, limit) }

  /** The first page of this size misses nothing, if the index can serve it. */
  ghost predicate FirstPageMissesNothing(ix: Index, user: Id, followed: seq<Id>, extra: nat, shown: nat) {
    var q := FirstQuery(user, followed, shown + extra);
    shown > 0 && Page(ix, q).Some? ==> MissesNothing(ix, q, shown)
  }

  lemma FetchOfFirst(q: Query, src: Source)
    requires q.lastId == 0 && q.limit > 0 && AllKept(q.followed, src)
    ensures InView(q, src) == ItemsOf(q.followed, src) && KeptOf(q, src) == Least(q.limit, |src.entries|)
    ensures Fetch(q, src) == src.entries[..KeptOf(q, src)]
  {
    AtMostAll(src.entries, None);
    CandidatesAtFirst(q, src, src.entries);
    CandidatesAtFirst(q, src, Fetch(q, src));
    AllKeptPrefix(First(q.followed), src, src.entries, |Fetch(q, src)|);
  }

  /** An item behind more than `extra` older ones is missed by the first page whose fetch ends just before it. */
  lemma OvertakenIsMissed(ix: Index, q: Query, src: Source, extra: nat, j: nat)
    requires q.user != 0 && q.lastId == 0 && Alone(ix, Query(q.user, q.followed, 0, 0, 0), src)
    requires AllKept(q.followed, src) && DistinctIds(ItemsOf(q.followed, src)) && q.limit == j
    requires j < |src.entries| && |OlderBefore(ItemsOf(q.followed, src), j, ItemsOf(q.followed, src)[j])| > extra
    ensures j > extra && Page(ix, q).Some? && !MissesNothing(ix, q, j - extra)
  {
    var items := ItemsOf(q.followed, src);
    OlderGrows(items, j, j, items[j]);
    AloneBehindACursor(ix, q, src);
    FetchOfFirst(q, src);
    assert Page(ix, q).Some? by { PageAlone(ix, q, src); }
    PageMissesNothingExactlyWhenFewOlder(ix, q, src, j - extra);
    assert !FewOlder(items, j, j - extra, j);
  }

  lemma AloneBehindACursor(ix: Index, q: Query, src: Source)
    requires Alone(ix, Query(q.user, q.followed, 0, 0, 0), src)
    ensures Alone(ix, q, src)
  {
    OutboxesSame(ix, q, Query(q.user, q.followed, 0, 0, 0), q.followed);
    assert Sources(ix, q) == Sources(ix, Query(q.user, q.followed, 0, 0, 0));
  }

  lemma FirstPageFew(ix: Index, user: Id, followed: seq<Id>, src: Source, extra: nat, shown: nat)
    requires user != 0 && Alone(ix, Query(user, followed, 0, 0, 0), src)
    requires AllKept(followed, src) && DistinctIds(ItemsOf(followed, src))
             && FewOlderBefore(ItemsOf(followed, src), extra)
    ensures FirstPageMissesNothing(ix, user, followed, extra, shown)
  {
    var q := FirstQuery(user, followed, shown + extra);
    if shown > 0 && Page(ix, q).Some? {
      AloneBehindACursor(ix, q, src);
      FetchOfFirst(q, src);
      NothingMissed(ix, q, src, shown, extra, 0);
    }
  }

  /** Where every entry counts, the first pages of all sizes miss nothing if and only if no entry stands behind
      more than `extra` older ones. */
  lemma FirstPagesMissNothingExactlyWhenFewOlderBefore(ix: Index, user: Id, followed: seq<Id>, src: Source, extra: nat)
    requires user != 0 && Alone(ix, Query(user, followed, 0, 0, 0), src)
    requires AllKept(followed, src) && DistinctIds(ItemsOf(followed, src))
    ensures (forall shown: nat :: FirstPageMissesNothing(ix, user, followed, extra, shown)) <==>
              FewOlderBefore(ItemsOf(followed, src), extra)
  {
    var items := ItemsOf(followed, src);
    if FewOlderBefore(items, extra) {
      forall shown: nat ensures FirstPageMissesNothing(ix, user, followed, extra, shown) {
        FirstPageFew(ix, user, followed, src, extra, shown);
      }
    } else {
      var j :| 0 <= j < |items| && |OlderBefore(items, j, items[j])| > extra;
      OvertakenIsMissed(ix, FirstQuery(user, followed, j), src, extra, j);
      assert !FirstPageMissesNothing(ix, user, followed, extra, j - extra);
    }
  }

  /** Without extra entries the condition is that the source is in (score, ID) order, that is, that its ties are
      in ID order. */
  lemma NoExtraMeansAligned(q: Query, src: Source)
    requires ZSet(src.entries) && AllKept(q.followed, src) && DistinctIds(ItemsOf(q.followed, src)) && q.lastId == 0
    ensures FewOlderBefore(ItemsOf(q.followed, src), 0) <==> Aligned(q, src)
    ensures Aligned(q, src) <==> TieSafe(src)
  {
    NoneOlderBeforeIsRanked(ItemsOf(q.followed, src));
    CandidatesAtFirst(q, src, src.entries);
    AtMostAll(src.entries, None);
    if TieSafe(src) { TieSafeIsAligned(q, src); }
    if Aligned(q, src) { AlignedIsTieSafe(q.followed, src); }
  }

  lemma {:induction false} KeptInPlace(q: Query, src: Source, z: seq<Entry>, i: nat)
    requires |Candidates(q, src, z)| == |z| && i < |z|
    ensures Candidate(q, src, z[i]) == Some(Candidates(q, src, z)[i])
  {
    var n := |z| - 1;
    if i < n { KeptInPlace(q, src, z[..n], i); }
  }

  lemma AlignedIsTieSafe(followed: seq<Id>, src: Source)
    requires AllKept(followed, src) && Ranked(Newer, ItemsOf(followed, src))
    ensures TieSafe(src)
  {
    var q, items := First(followed), ItemsOf(followed, src);
    forall i, j | 0 <= i < j < |src.entries| && src.entries[i].score == src.entries[j].score
      ensures var a := ParseMember(src.entries[i].member, src.inbox, src.owner);
              var b := ParseMember(src.entries[j].member, src.inbox, src.owner);
              a.Some? && b.Some? ==> a.value.0 > b.value.0
    {
      KeptInPlace(q, src, src.entries, i);
      KeptInPlace(q, src, src.entries, j);
      assert Newer(items[i], items[j]);
    }
  }
}
