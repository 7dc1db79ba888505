/** The repository behind the follow feed: the index as the program updates and reads it in place. */
module FeedRepo {
  import opened Ranking
  import opened Text
  import opened SortedSet
  import opened FollowIndex
  import opened FollowPage

  lemma DedupSnoc(items: seq<HotItem>, item: HotItem)
    ensures Dedup(items + [item]) == if item.id in Ids(Dedup(items)) then Dedup(items) else Dedup(items) + [item]
  {
    assert (items + [item])[..|items|] == items;
  }

  lemma CandidatesSnoc(q: Query, src: Source, entries: seq<Entry>, j: nat)
    requires j < |entries|
    ensures Candidates(q, src, entries[..j + 1]) == Candidates(q, src, entries[..j]) +
              match Candidate(q, src, entries[j]) case None => [] case Some(item) => [item]
  {
    assert entries[..j + 1][..j] == entries[..j];
  }

  /** What one more entry does to the items collected so far. */
  lemma CollectStep(q: Query, src: Source, values: seq<Entry>, j: nat, done: seq<HotItem>, items: seq<HotItem>)
    requires j < |values| && items == Dedup(done + Candidates(q, src, values[..j]))
    ensures Dedup(done + Candidates(q, src, values[..j + 1])) ==
              match Candidate(q, src, values[j])
              case None => items
              case Some(item) => if item.id in Ids(items) then items else items + [item]
  {
    CandidatesSnoc(q, src, values, j);
    var before := done + Candidates(q, src, values[..j]);
    match Candidate(q, src, values[j])
    case None =>
      assert Candidates(q, src, values[..j + 1]) == Candidates(q, src, values[..j]);
    case Some(item) =>
      assert done + Candidates(q, src, values[..j + 1]) == before + [item];
      DedupSnoc(before, item);
  }

  lemma IdsAdd(items: seq<HotItem>, item: HotItem)
    ensures Ids(items + [item]) == Ids(items) + {item.id}
  {
    IdsSnoc(items + [item]);
    assert (items + [item])[..|items|] == items;
  }

  lemma FetchedSnoc(q: Query, sources: seq<Source>, i: nat)
    requires q.limit > 0 && i < |sources|
    ensures Fetched(q, sources[..i + 1]) == Fetched(q, sources[..i]) + Candidates(q, sources[i], Fetch(q, sources[i]))
  {
    assert sources[..i + 1][..i] == sources[..i];
  }

  predicate AnyFetched(q: Query, sources: seq<Source>)
    requires q.limit > 0
  {
    exists src :: src in sources && Fetch(q, src) != []
  }

  lemma AnyFetchedSnoc(q: Query, sources: seq<Source>, i: nat)
    requires q.limit > 0 && i < |sources|
    ensures AnyFetched(q, sources[..i + 1]) <==> AnyFetched(q, sources[..i]) || Fetch(q, sources[i]) != []
  {
    assert sources[..i + 1] == sources[..i] + [sources[i]];
  }

  lemma OutboxesSnoc(ix: Index, q: Query, authors: seq<Id>, author: Id)
    ensures Outboxes(ix, q, authors + [author]) == Outboxes(ix, q, authors) +
              if author > 0 && author != q.user && At(ix.outboxes, author) != []
              then [Source(false, author, At(ix.outboxes, author))] else []
  {
    assert (authors + [author])[..|authors|] == authors;
  }

  lemma RunSnoc(ix: Index, ops: seq<Op>, op: Op)
    ensures Run(ix, ops + [op]) == Apply(Run(ix, ops), op)
  {
    assert (ops + [op])[..|ops|] == ops;
  }

  lemma {:induction false} RunConcat(ix: Index, a: seq<Op>, b: seq<Op>)
    ensures Run(ix, a + b) == Run(Run(ix, a), b)
  {
    if b == [] {
      assert a + b == a;
    } else {
      var n := |b| - 1;
      RunConcat(ix, a, b[..n]);
      assert a + b == a + b[..n] + [b[n]];
      RunSnoc(ix, a + b[..n], b[n]);
    }
  }

  lemma {:induction false} RunIdle(ix: Index, ops: seq<Op>)
    requires forall op :: op in ops ==> op.PushInbox? && !Indexable(op.item)
    ensures Run(ix, ops) == ix
  {
    if ops != [] {
      RunIdle(ix, ops[..|ops| - 1]);
      assert ops[|ops| - 1] in ops;
    }
  }

  class Repo {
    var inboxes: map<Id, seq<Entry>>
    var outboxes: map<Id, seq<Entry>>

    ghost function View(): Index
      reads this
    {
      Index(inboxes, outboxes)
    }

    constructor ()
      ensures View() == EMPTY
    {
      inboxes, outboxes := map[], map[];
    }

    method PushInboxItems(followers: seq<Id>, item: Item)
      modifies this`inboxes
      ensures View() == Run(old(View()), PageOps(item, followers))
    {
      if |followers| == 0 || item.video == 0 || item.publishedAt.None? {
        RunIdle(View(), PageOps(item, followers));
        return;
      }
      var entry := InboxEntry(item);
      for i := 0 to |followers|
        invariant View() == Run(old(View()), PageOps(item, followers)[..i])
      {
        var z := At(inboxes, followers[i]);
        inboxes := inboxes[followers[i] := ZTrim(ZAdd(z, entry), INBOX_MAX)];
        assert PageOps(item, followers)[..i + 1] == PageOps(item, followers)[..i] + [PushInbox(followers[i], item)];
        RunSnoc(old(View()), PageOps(item, followers)[..i], PushInbox(followers[i], item));
      }
      assert PageOps(item, followers)[..|followers|] == PageOps(item, followers);
    }

    method PushInboxItemsForFollower(follower: Id, items: seq<Item>)
      modifies this`inboxes
      ensures View() == Apply(old(View()), Backfill(follower, items))
    {
      if follower == 0 || |items| == 0 {
        return;
      }
      var z := At(inboxes, follower);
      for i := 0 to |items|
        invariant z == AddAll(At(inboxes, follower), items[..i])
      {
        assert items[..i + 1][..i] == items[..i];
        if items[i].video != 0 && items[i].publishedAt.Some? {
          z := ZAdd(z, InboxEntry(items[i]));
        }
      }
      assert items[..|items|] == items;
      inboxes := inboxes[follower := ZTrim(z, INBOX_MAX)];
    }

    method PushOutboxItem(item: Item)
      modifies this`outboxes
      ensures View() == Apply(old(View()), PushOutbox(item))
    {
      if item.video == 0 || item.author == 0 || item.publishedAt.None? {
        return;
      }
      outboxes := outboxes[item.author := ZTrim(ZAdd(At(outboxes, item.author), OutboxEntry(item)), OUTBOX_MAX)];
    }

    method HasOutbox(authors: seq<Id>) returns (result: map<Id, bool>)
      ensures result.Keys == (set a | a in authors)
      ensures forall a :: a in authors ==> result[a] == (At(outboxes, a) != [])
    {
      result := map[];
      for i := 0 to |authors|
        invariant result.Keys == (set a | a in authors[..i])
        invariant forall a :: a in authors[..i] ==> result[a] == (At(outboxes, a) != [])
      {
        assert authors[..i + 1] == authors[..i] + [authors[i]];
        result := result[authors[i] := At(outboxes, authors[i]) != []];
      }
      assert authors[..|authors|] == authors;
    }

    /** The keys to read, with their owners. */
    method ListSources(q: Query) returns (sources: seq<Source>)
      ensures sources == Sources(View(), q)
    {
      var candidates: seq<Id> := [];
      for i := 0 to |q.followed|
        invariant forall a :: a in candidates ==> a > 0 && a != q.user
        invariant Outboxes(View(), q, candidates) == Outboxes(View(), q, q.followed[..i])
      {
        var author := q.followed[i];
        assert q.followed[..i + 1] == q.followed[..i] + [author];
        OutboxesSnoc(View(), q, q.followed[..i], author);
        if author > 0 && author != q.user {
          OutboxesSnoc(View(), q, candidates, author);
          candidates := candidates + [author];
        }
      }
      assert q.followed[..|q.followed|] == q.followed;
      var hasOutbox := HasOutbox(candidates);
      sources := [Source(true, 0, At(inboxes, q.user))];
      for i := 0 to |candidates|
        invariant sources == [Source(true, 0, At(inboxes, q.user))] + Outboxes(View(), q, candidates[..i])
      {
        var author := candidates[i];
        assert candidates[..i + 1] == candidates[..i] + [author];
        OutboxesSnoc(View(), q, candidates[..i], author);
        if hasOutbox[author] {
          sources := sources + [Source(false, author, At(outboxes, author))];
        }
      }
      assert candidates[..|candidates|] == candidates;
    }

    /** The loop over one key's range. */
    method Collect(q: Query, src: Source, values: seq<Entry>, items0: seq<HotItem>, seen0: set<Id>, ghost done: seq<HotItem>)
      returns (items: seq<HotItem>, seen: set<Id>)
      requires items0 == Dedup(done) && seen0 == Ids(items0)
      ensures items == Dedup(done + Candidates(q, src, values)) && seen == Ids(items)
    {
      items, seen := items0, seen0;
      assert done + [] == done;
      for j := 0 to |values|
        invariant items == Dedup(done + Candidates(q, src, values[..j])) && seen == Ids(items)
      {
        CollectStep(q, src, values, j, done, items);
        var parsed := ParseMember(values[j].member, src.inbox, src.owner);
        if parsed.None? || parsed.value.1 !in q.followed {
          continue;
        }
        var video := parsed.value.0;
        if video in seen {
          continue;
        }
        if q.lastId > 0 && values[j].score == q.lastCreatedAt && video >= q.lastId {
          continue;
        }
        IdsAdd(items, HotItem(video, values[j].score));
        seen := seen + {video};
        items := items + [HotItem(video, values[j].score)];
      }
      assert values[..|values|] == values;
    }

    /** One page of the follow feed from the index, and whether the index could serve it. */
    method FollowPage(q: Query) returns (page: seq<HotItem>, available: bool)
      ensures Page(View(), q) == if available then Some(page) else None
      ensures !available ==> page == []
    {
      if q.user == 0 || q.limit <= 0 {
        return [], false;
      }
      var sources := ListSources(q);
      var items: seq<HotItem> := [];
      var seen: set<Id> := {};
      available := false;
      for i := 0 to |sources|
        invariant items == Dedup(Fetched(q, sources[..i])) && seen == Ids(items)
        invariant available <==> AnyFetched(q, sources[..i])
      {
        FetchedSnoc(q, sources, i);
        AnyFetchedSnoc(q, sources, i);
        var values := ZRevRangeByScore(sources[i].entries, MaxScore(q), q.limit);
        if |values| == 0 {
          assert Fetched(q, sources[..i + 1]) == Fetched(q, sources[..i]);
          continue;
        }
        available := true;
        items, seen := Collect(q, sources[i], values, items, seen, Fetched(q, sources[..i]));
      }
      assert sources[..|sources|] == sources;
      if !available {
        return [], false;
      }
      NewerIsTotal();
      page := Sort(Newer, items);
      assert page == Newest(Elems(items));
      if |page| > q.limit {
        page := page[..q.limit];
      }
    }
  }
}
