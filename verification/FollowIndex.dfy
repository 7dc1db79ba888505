/** The follow feed's index: an inbox per user, written when a small author publishes, and an outbox per big
    author, read when a follower asks. Both are trimmed at every push. */
module FollowIndex {
  import opened Ranking
  import opened Text
  import opened SortedSet

  const INBOX_MAX := 1000
  const OUTBOX_MAX := 500
  const BIG_AUTHOR := 5000

  /** A video to index; None is Go's zero time. */
  datatype Item = Item(video: Id, author: Id, publishedAt: Option<int>)

  datatype Index = Index(inboxes: map<Id, seq<Entry>>, outboxes: map<Id, seq<Entry>>)

  function At(boxes: map<Id, seq<Entry>>, key: Id): seq<Entry> {
    if key in boxes then boxes[key] else []
  }

  predicate Indexable(item: Item) { item.video != 0 && item.publishedAt.Some? }

  function InboxEntry(item: Item): Entry
    requires Indexable(item)
  {
    Entry(item.publishedAt.value, Format(item.video) + ":" + Format(item.author))
  }

  function OutboxEntry(item: Item): Entry
    requires Indexable(item)
  {
    Entry(item.publishedAt.value, Format(item.video))
  }

  /** One command on one key. */
  datatype Op =
    | PushInbox(follower: Id, item: Item)
    | Backfill(follower: Id, items: seq<Item>)
    | PushOutbox(item: Item)

  function AddAll(z: seq<Entry>, items: seq<Item>): seq<Entry> {
    if items == [] then z
    else
      var before := AddAll(z, items[..|items| - 1]);
      var item := items[|items| - 1];
      if Indexable(item) then ZAdd(before, InboxEntry(item)) else before
  }

  function Apply(ix: Index, op: Op): Index {
    match op
    case PushInbox(follower, item) =>
      if Indexable(item)
      then ix.(inboxes := ix.inboxes[follower := ZTrim(ZAdd(At(ix.inboxes, follower), InboxEntry(item)), INBOX_MAX)])
      else ix
    case Backfill(follower, items) =>
      if follower != 0 && items != []
      then ix.(inboxes := ix.inboxes[follower := ZTrim(AddAll(At(ix.inboxes, follower), items), INBOX_MAX)])
      else ix
    case PushOutbox(item) =>
      if Indexable(item) && item.author != 0
      then ix.(outboxes := ix.outboxes[item.author := ZTrim(ZAdd(At(ix.outboxes, item.author), OutboxEntry(item)), OUTBOX_MAX)])
      else ix
  }

  function Run(ix: Index, ops: seq<Op>): Index {
    if ops == [] then ix else Apply(Run(ix, ops[..|ops| - 1]), ops[|ops| - 1])
  }

  const EMPTY := Index(map[], map[])

  // ------------------------------------------------------------------ everything ever pushed

  function Offered(items: seq<Item>): set<Entry> {
    set i | 0 <= i < |items| && Indexable(items[i]) :: InboxEntry(items[i])
  }

  /** The entries a command offers to a user's inbox. */
  function OfferedInbox(op: Op, user: Id): set<Entry> {
    match op
    case PushInbox(follower, item) => if follower == user && Indexable(item) then {InboxEntry(item)} else {}
    case Backfill(follower, items) =>
      if follower == user && follower != 0 then Offered(items) else {}
    case PushOutbox(_) => {}
  }

  function OfferedOutbox(op: Op, author: Id): set<Entry> {
    if op.PushOutbox? && op.item.author == author && author != 0 && Indexable(op.item) then {OutboxEntry(op.item)} else {}
  }

  function InboxHistory(ops: seq<Op>, user: Id): set<Entry> {
    if ops == [] then {} else InboxHistory(ops[..|ops| - 1], user) + OfferedInbox(ops[|ops| - 1], user)
  }

  function OutboxHistory(ops: seq<Op>, author: Id): set<Entry> {
    if ops == [] then {} else OutboxHistory(ops[..|ops| - 1], author) + OfferedOutbox(ops[|ops| - 1], author)
  }

  /** z holds exactly the cap highest entries of everything in `all`. */
  ghost predicate HoldsTop(z: seq<Entry>, all: set<Entry>, cap: nat) {
    ZSet(z) && Elems(z) == Highest(all, cap)
  }

  lemma AddOffered(z: seq<Entry>, e: Entry)
    requires ZSet(z) && OneScore(Elems(z) + {e})
    ensures ZSet(ZAdd(z, e)) && Elems(ZAdd(z, e)) == Elems(z) + {e}
  {
    ZAddIsZSet(z, e);
    forall x | x in z ensures x == e || x.member != e.member {
      assert x in Elems(z) + {e} && e in Elems(z) + {e};
    }
  }

  lemma TrimKeepsTop(z: seq<Entry>, added: seq<Entry>, all: set<Entry>, offered: set<Entry>, cap: nat)
    requires HoldsTop(z, all, cap)
    requires ZSet(added) && Elems(added) == Elems(z) + offered
    ensures HoldsTop(ZTrim(added, cap), all + offered, cap)
  {
    ZTrimIsZSet(added, cap);
    TrimIsHighest(added, cap);
    HighestAbsorbs(all, offered, cap);
  }

  lemma PushKeepsTop(z: seq<Entry>, e: Entry, all: set<Entry>, cap: nat)
    requires HoldsTop(z, all, cap) && OneScore(all + {e})
    ensures HoldsTop(ZTrim(ZAdd(z, e), cap), all + {e}, cap)
  {
    AddOffered(z, e);
    TrimKeepsTop(z, ZAdd(z, e), all, {e}, cap);
  }

  lemma OfferedSnoc(items: seq<Item>)
    requires items != []
    ensures var n := |items| - 1;
            Offered(items) == Offered(items[..n]) + if Indexable(items[n]) then {InboxEntry(items[n])} else {}
  {
    var n := |items| - 1;
    forall e | e in Offered(items[..n]) ensures e in Offered(items) {
      var i :| 0 <= i < n && Indexable(items[..n][i]) && InboxEntry(items[..n][i]) == e;
      assert Indexable(items[i]) && InboxEntry(items[i]) == e;
    }
    forall e | e in Offered(items)
      ensures e in Offered(items[..n]) || (Indexable(items[n]) && e == InboxEntry(items[n]))
    {
      var i :| 0 <= i < |items| && Indexable(items[i]) && InboxEntry(items[i]) == e;
      if i < n { assert items[..n][i] == items[i]; }
    }
  }

  lemma {:induction false} AddAllOffered(z: seq<Entry>, items: seq<Item>)
    requires ZSet(z) && OneScore(Elems(z) + Offered(items))
    ensures ZSet(AddAll(z, items)) && Elems(AddAll(z, items)) == Elems(z) + Offered(items)
  {
    if items != [] {
      var n := |items| - 1;
      OfferedSnoc(items);
      AddAllOffered(z, items[..n]);
      if Indexable(items[n]) {
        AddOffered(AddAll(z, items[..n]), InboxEntry(items[n]));
      }
    }
  }

  lemma InboxStep(ix: Index, op: Op, all: set<Entry>, user: Id)
    requires HoldsTop(At(ix.inboxes, user), all, INBOX_MAX) && OneScore(all + OfferedInbox(op, user))
    ensures HoldsTop(At(Apply(ix, op).inboxes, user), all + OfferedInbox(op, user), INBOX_MAX)
  {
    var z := At(ix.inboxes, user);
    if op.PushInbox? && op.follower == user && Indexable(op.item) {
      PushKeepsTop(z, InboxEntry(op.item), all, INBOX_MAX);
    } else if op.Backfill? && op.follower == user && user != 0 && op.items != [] {
      AddAllOffered(z, op.items);
      TrimKeepsTop(z, AddAll(z, op.items), all, Offered(op.items), INBOX_MAX);
    } else {
      assert all + OfferedInbox(op, user) == all;
    }
  }

  lemma OutboxStep(ix: Index, op: Op, all: set<Entry>, author: Id)
    requires HoldsTop(At(ix.outboxes, author), all, OUTBOX_MAX) && OneScore(all + OfferedOutbox(op, author))
    ensures HoldsTop(At(Apply(ix, op).outboxes, author), all + OfferedOutbox(op, author), OUTBOX_MAX)
  {
    if op.PushOutbox? && op.item.author == author && author != 0 && Indexable(op.item) {
      PushKeepsTop(At(ix.outboxes, author), OutboxEntry(op.item), all, OUTBOX_MAX);
    } else {
      assert all + OfferedOutbox(op, author) == all;
    }
  }

  /** Trimming as you push is trimming at the end: in whatever order single pushes, backfills, duplicates and
      redeliveries arrive, an inbox holds exactly the 1000 highest of all entries ever offered to it, provided
      a member always comes with one score. */
  lemma {:induction false} InboxIsTop(ops: seq<Op>, user: Id)
    requires OneScore(InboxHistory(ops, user))
    ensures HoldsTop(At(Run(EMPTY, ops).inboxes, user), InboxHistory(ops, user), INBOX_MAX)
  {
    if ops != [] {
      var n := |ops| - 1;
      InboxIsTop(ops[..n], user);
      InboxStep(Run(EMPTY, ops[..n]), ops[n], InboxHistory(ops[..n], user), user);
    }
  }

  /** The same for an author's outbox and its 500 highest. */
  lemma {:induction false} OutboxIsTop(ops: seq<Op>, author: Id)
    requires OneScore(OutboxHistory(ops, author))
    ensures HoldsTop(At(Run(EMPTY, ops).outboxes, author), OutboxHistory(ops, author), OUTBOX_MAX)
  {
    if ops != [] {
      var n := |ops| - 1;
      OutboxIsTop(ops[..n], author);
      OutboxStep(Run(EMPTY, ops[..n]), ops[n], OutboxHistory(ops[..n], author), author);
    }
  }

  /** The proviso is needed, at every length: a member pushed above a full set and then scored below all of it
      has driven out the lowest entry, which trimming at the end would have kept. */
  lemma RescoringLosesAnEntry(z: seq<Entry>, cap: nat, high: Entry, low: Entry)
    requires ZSet(z) && |z| == cap > 0 && high.member == low.member
    requires forall e :: e in z ==> e.member != high.member && Above(high, e) && Above(e, low)
    ensures var lost := z[cap - 1];
            && lost !in ZTrim(ZAdd(ZTrim(ZAdd(z, high), cap), low), cap)
            && lost in ZTrim(ZAdd(ZAdd(z, high), low), cap)
  {
    WithoutNone(z, high.member);
    AddOnTop(z, high);
    assert ZAdd(z, high) == [high] + z;
    var cut := ZTrim(ZAdd(z, high), cap);
    assert cut == [high] + z[..cap - 1];
    LastIsAlone(z);
    assert z[cap - 1] !in cut;
    WithoutHead(high, z[..cap - 1], low);
    WithoutHead(high, z, low);
    AddBelow(z, low);
    assert ZTrim(ZAdd(ZAdd(z, high), low), cap) == z;
  }

  lemma {:induction false} WithoutNone(z: seq<Entry>, member: string)
    requires forall e :: e in z ==> e.member != member
    ensures Without(z, member) == z
  {
    if z != [] {
      WithoutNone(z[1..], member);
    }
  }

  lemma AddOnTop(z: seq<Entry>, high: Entry)
    requires forall e :: e in z ==> Above(high, e)
    ensures Insert(Above, z, high) == [high] + z
  {
    if z != [] { assert z[0] in z; }
  }

  lemma {:induction false} AddBelow(z: seq<Entry>, low: Entry)
    requires forall e :: e in z ==> Above(e, low)
    ensures Insert(Above, z, low) == z + [low]
  {
    if z != [] {
      assert z[0] in z;
      BeforeTotal(z[0].member, low.member);
      AddBelow(z[1..], low);
      assert [z[0]] + (z[1..] + [low]) == z + [low];
    }
  }

  lemma LastIsAlone(z: seq<Entry>)
    requires ZSet(z) && z != []
    ensures z[|z| - 1] !in z[..|z| - 1]
  {
    AboveIsTotal();
    var n := |z| - 1;
    forall i | 0 <= i < n ensures z[i] != z[n] { assert Above(z[i], z[n]); }
  }

  /** What scoring `low` does to a set whose head is the same member, scored higher. */
  lemma WithoutHead(high: Entry, rest: seq<Entry>, low: Entry)
    requires high.member == low.member && forall e :: e in rest ==> e.member != high.member && Above(e, low)
    ensures ZAdd([high] + rest, low) == rest + [low]
  {
    assert ([high] + rest)[1..] == rest;
    WithoutNone(rest, low.member);
    AddBelow(rest, low);
  }

  /** So it happens to a full inbox: a video announced with a time above everything in it and announced again
      with a time below costs the inbox's oldest video its place for good. */
  lemma RescoringAVideoLosesAnother(ix: Index, user: Id, early: Item, late: Item)
    requires Indexable(early) && Indexable(late) && late.video == early.video && late.author == early.author
    requires ZSet(At(ix.inboxes, user)) && |At(ix.inboxes, user)| == INBOX_MAX
    requires forall e :: e in At(ix.inboxes, user) ==>
               e.member != InboxEntry(early).member && Above(InboxEntry(late), e) && Above(e, InboxEntry(early))
    ensures var oldest := At(ix.inboxes, user)[INBOX_MAX - 1];
            oldest !in At(Run(ix, [PushInbox(user, late), PushInbox(user, early)]).inboxes, user)
  {
    var ops := [PushInbox(user, late), PushInbox(user, early)];
    RescoringLosesAnEntry(At(ix.inboxes, user), INBOX_MAX, InboxEntry(late), InboxEntry(early));
    assert ops[..1] == [PushInbox(user, late)] && ops[..1][..0] == [];
    assert Run(ix, ops[..1]) == Apply(ix, PushInbox(user, late));
  }

  /** Pushes without a video, a time, a follower or an author change nothing. */
  lemma IncompletePushesAreIgnored(ix: Index, item: Item, user: Id, items: seq<Item>)
    ensures item.video == 0 || item.publishedAt.None? ==>
              Apply(ix, PushInbox(user, item)) == Apply(ix, PushOutbox(item)) == ix
    ensures item.author == 0 ==> Apply(ix, PushOutbox(item)) == ix
    ensures Apply(ix, Backfill(0, items)) == Apply(ix, Backfill(user, [])) == ix
  {
  }

  /** A push of something changes one box and leaves it no longer than its limit. */
  lemma PushesTouchOneBox(ix: Index, item: Item, user: Id, items: seq<Item>)
    ensures var after := Apply(ix, PushInbox(user, item));
            after.outboxes == ix.outboxes && forall u :: u != user ==> At(after.inboxes, u) == At(ix.inboxes, u)
    ensures var after := Apply(ix, Backfill(user, items));
            after.outboxes == ix.outboxes && forall u :: u != user ==> At(after.inboxes, u) == At(ix.inboxes, u)
    ensures var after := Apply(ix, PushOutbox(item));
            after.inboxes == ix.inboxes && forall a :: a != item.author ==> At(after.outboxes, a) == At(ix.outboxes, a)
  {
  }

  /** No run fills an inbox beyond 1000 or an outbox beyond 500. */
  lemma {:induction false} BoxesAreBounded(ops: seq<Op>, k: Id)
    ensures |At(Run(EMPTY, ops).inboxes, k)| <= 1000 && |At(Run(EMPTY, ops).outboxes, k)| <= 500
  {
    if ops != [] {
      BoxesAreBounded(ops[..|ops| - 1], k);
    }
  }

  // ------------------------------------------------------------------ publishing

  /** HandleVideoCreated's choice: an author with no follower set, or a big one, writes the outbox only;
      any other author's followers are scanned page by page. */
  function CreatedOps(item: Item, followers: nat, pages: seq<seq<Id>>): seq<Op> {
    if followers == 0 || followers >= BIG_AUTHOR then [PushOutbox(item)] else FanoutOps(item, pages)
  }

  function FanoutOps(item: Item, pages: seq<seq<Id>>): seq<Op> {
    if pages == [] then [] else FanoutOps(item, pages[..|pages| - 1]) + PageOps(item, pages[|pages| - 1])
  }

  function PageOps(item: Item, page: seq<Id>): (r: seq<Op>)
    ensures |r| == |page| && forall i :: 0 <= i < |r| ==> r[i] == PushInbox(page[i], item)
  {
    seq(|page|, i requires 0 <= i < |page| => PushInbox(page[i], item))
  }

  lemma {:induction false} FanoutReaches(item: Item, pages: seq<seq<Id>>, i: nat, user: Id)
    requires i < |pages| && user in pages[i]
    ensures PushInbox(user, item) in FanoutOps(item, pages)
  {
    var n := |pages| - 1;
    if i < n {
      FanoutReaches(item, pages[..n], i, user);
    } else {
      var k :| 0 <= k < |pages[n]| && pages[n][k] == user;
      assert PageOps(item, pages[n])[k] == PushInbox(user, item);
    }
  }

  /** An author whom nobody follows in the set, or at least 5000 do, writes the outbox once; any other writes the inboxes
      of those the scan returned, and nothing else. */
  lemma {:induction false} PublishingGoesOneWay(item: Item, followers: nat, pages: seq<seq<Id>>, op: Op)
    ensures followers == 0 || followers >= 5000 ==> CreatedOps(item, followers, pages) == [PushOutbox(item)]
    ensures 0 < followers < 5000 ==>
              (op in CreatedOps(item, followers, pages) <==>
                 op.PushInbox? && op.item == item && exists i :: 0 <= i < |pages| && op.follower in pages[i])
  {
    if 0 < followers < 5000 {
      if op in FanoutOps(item, pages) { FanoutComesFrom(item, pages, op); }
      if op.PushInbox? && op.item == item && exists i :: 0 <= i < |pages| && op.follower in pages[i] {
        var i :| 0 <= i < |pages| && op.follower in pages[i];
        FanoutReaches(item, pages, i, op.follower);
      }
    }
  }

  lemma {:induction false} FanoutComesFrom(item: Item, pages: seq<seq<Id>>, op: Op)
    requires op in FanoutOps(item, pages)
    ensures op.PushInbox? && op.item == item && exists i :: 0 <= i < |pages| && op.follower in pages[i]
  {
    var n := |pages| - 1;
    if op in FanoutOps(item, pages[..n]) {
      FanoutComesFrom(item, pages[..n], op);
      var i :| 0 <= i < n && op.follower in pages[..n][i];
      assert op.follower in pages[i];
    } else {
      var k :| 0 <= k < |PageOps(item, pages[n])| && PageOps(item, pages[n])[k] == op;
      assert op.follower in pages[n];
    }
  }

  lemma {:induction false} HistoryHas(ops: seq<Op>, op: Op, user: Id)
    requires op in ops
    ensures OfferedInbox(op, user) <= InboxHistory(ops, user)
    ensures OfferedOutbox(op, user) <= OutboxHistory(ops, user)
  {
    var n := |ops| - 1;
    if op in ops[..n] {
      HistoryHas(ops[..n], op, user);
    } else {
      assert op == ops[n];
    }
  }

  /** The entry is in z, or z is full of entries that come before it. */
  ghost predicate KeptOrOutranked(z: seq<Entry>, e: Entry, cap: nat) {
    e in z || (|Elems(z)| == cap && forall x :: x in z ==> Above(x, e))
  }

  /** Push or pull, a published video reaches every standing follower: when a run contains what
      HandleVideoCreated did for the video, then at the end of the run, whatever else it contains and in
      whatever order, a user the follower set held throughout has it in the inbox, or the author's outbox has
      it, unless newer entries crowded it out. `followers` is the set when it was counted; the scan returned
      the user on some page. */
  lemma PublishedReachesFollowers(ops: seq<Op>, item: Item, followers: set<Id>, pages: seq<seq<Id>>, user: Id)
    requires Indexable(item) && item.author != 0
    requires user in followers && exists i :: 0 <= i < |pages| && user in pages[i]
    requires forall op :: op in CreatedOps(item, |followers|, pages) ==> op in ops
    requires OneScore(InboxHistory(ops, user)) && OneScore(OutboxHistory(ops, item.author))
    ensures var ix := Run(EMPTY, ops);
            || KeptOrOutranked(At(ix.inboxes, user), InboxEntry(item), INBOX_MAX)
            || KeptOrOutranked(At(ix.outboxes, item.author), OutboxEntry(item), OUTBOX_MAX)
  {
    if |followers| >= BIG_AUTHOR {
      HistoryHas(ops, PushOutbox(item), item.author);
      OutboxIsTop(ops, item.author);
      NotHighest(OutboxHistory(ops, item.author), OUTBOX_MAX, OutboxEntry(item));
    } else {
      assert |followers| > 0;
      var i :| 0 <= i < |pages| && user in pages[i];
      FanoutReaches(item, pages, i, user);
      HistoryHas(ops, PushInbox(user, item), user);
      InboxIsTop(ops, user);
      NotHighest(InboxHistory(ops, user), INBOX_MAX, InboxEntry(item));
    }
  }
}
