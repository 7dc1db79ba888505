/** Who is told about an interaction, live or afterwards: the event handlers resolve one interaction each, and
    Backfill goes through the tables of likes, comments and follows and notifies what is still missing. */
module Backfill {
  import opened Ranking
  import opened Text
  import opened Notify

  datatype LikeRow = LikeRow(user: Id, onVideo: bool, target: Id, at: nat)
  datatype CommentRow = CommentRow(commenter: Id, video: Id, replyTo: Id, at: nat)
  datatype FollowRow = FollowRow(follower: Id, following: Id, at: nat)

  /** The tables: videos with their authors, the three relations by row ID, and the accounts there are. */
  datatype World = World(
    videos: map<Id, Id>,
    likes: map<Id, LikeRow>,
    comments: map<Id, CommentRow>,
    follows: map<Id, FollowRow>,
    users: set<Id>)

  datatype Table = Likes | Comments | Follows

  function Ids(w: World, t: Table): set<Id> {
    match t
    case Likes => w.likes.Keys
    case Comments => w.comments.Keys
    case Follows => w.follows.Keys
  }

  // ------------------------------------------------------------------ who is told

  function ResolveVideoLike(w: World, video: Id, operator: Id): Option<DetailKey> {
    if video !in w.videos then None
    else if w.videos[video] == 0 || w.videos[video] == operator then None
    else Some(DetailKey(Group(w.videos[video], LikeVideo, video), operator))
  }

  function ResolveCommentLike(w: World, comment: Id, operator: Id): Option<DetailKey> {
    if comment !in w.comments then None
    else
      var commenter := w.comments[comment].commenter;
      if commenter == 0 || commenter == operator then None
      else Some(DetailKey(Group(commenter, LikeComment, comment), operator))
  }

  /** A reply is for whom it answers, a top-level comment for the video's author. */
  function ResolveComment(w: World, comment: Id): Option<DetailKey> {
    if comment !in w.comments then None
    else
      var row := w.comments[comment];
      if row.commenter == 0 then None
      else if row.replyTo > 0 then
        if row.replyTo == row.commenter then None
        else Some(DetailKey(Group(row.replyTo, Reply, comment), row.commenter))
      else if row.video !in w.videos then None
      else
        var author := w.videos[row.video];
        if author == 0 || author == row.commenter then None
        else Some(DetailKey(Group(author, Comment, comment), row.commenter))
  }

  function ResolveFollow(follower: Id, following: Id): Option<DetailKey> {
    if follower == 0 || following == 0 || follower == following then None
    else Some(DetailKey(Group(following, Follow, follower), follower))
  }

  /** What Backfill does with a row: count it as missing or as without an account, pass it over, or notify. */
  datatype Outcome = Missing | Gone | Silent | Told(key: DetailKey, at: nat)

  function Checked(w: World, key: DetailKey, at: nat): Outcome {
    if key.group.user in w.users then Told(key, at) else Gone
  }

  function KeyOf(w: World, t: Table, id: Id): Option<DetailKey>
    requires id in Ids(w, t)
  {
    match t
    case Likes =>
      var row := w.likes[id];
      if row.onVideo then ResolveVideoLike(w, row.target, row.user) else ResolveCommentLike(w, row.target, row.user)
    case Comments => ResolveComment(w, id)
    case Follows => ResolveFollow(w.follows[id].follower, w.follows[id].following)
  }

  function TimeOf(w: World, t: Table, id: Id): nat
    requires id in Ids(w, t)
  {
    match t
    case Likes => w.likes[id].at
    case Comments => w.comments[id].at
    case Follows => w.follows[id].at
  }

  function OutcomeOf(w: World, t: Table, id: Id): Outcome
    requires id in Ids(w, t)
  {
    match KeyOf(w, t, id)
    case None => if t == Follows then Silent else Missing
    case Some(key) => Checked(w, key, TimeOf(w, t, id))
  }

  function WantedBy(w: World, t: Table): set<DetailKey> {
    set id | id in Ids(w, t) && OutcomeOf(w, t, id).Told? :: OutcomeOf(w, t, id).key
  }

  /** The notifications the tables call for. */
  function Wanted(w: World): set<DetailKey> { WantedBy(w, Likes) + WantedBy(w, Comments) + WantedBy(w, Follows) }

  lemma NobodyIsToldOfThemselves(w: World, key: DetailKey)
    requires key in Wanted(w)
    ensures key.group.user in w.users && key.group.user != 0 && key.group.user != key.actor
  {
  }

  /** A comment tells one person at most, of it and by its commenter: whom it answers, as a reply, or, if it answers
      nobody, the author of its video, as a comment. */
  lemma CommentTells(w: World, comment: Id)
    requires comment in w.comments && w.comments[comment].commenter != 0
    ensures var row, told := w.comments[comment], ResolveComment(w, comment);
            && (row.replyTo > 0 ==>
                  told == if row.replyTo == row.commenter then None
                          else Some(DetailKey(Group(row.replyTo, Reply, comment), row.commenter)))
            && (row.replyTo == 0 ==>
                  told == if row.video in w.videos && w.videos[row.video] !in {0, row.commenter}
                          then Some(DetailKey(Group(w.videos[row.video], Comment, comment), row.commenter)) else None)
  {
  }

  lemma LikeTells(w: World, target: Id, operator: Id)
    ensures ResolveVideoLike(w, target, operator) ==
              if target in w.videos && w.videos[target] !in {0, operator}
              then Some(DetailKey(Group(w.videos[target], LikeVideo, target), operator)) else None
    ensures ResolveCommentLike(w, target, operator) ==
              if target in w.comments && w.comments[target].commenter !in {0, operator}
              then Some(DetailKey(Group(w.comments[target].commenter, LikeComment, target), operator)) else None
  {
  }

  lemma FollowTells(follower: Id, following: Id)
    ensures ResolveFollow(follower, following) ==
              if follower != 0 && following !in {0, follower}
              then Some(DetailKey(Group(following, Follow, follower), follower)) else None
  {
  }

  /** The row behind a notification, read off the tables. */
  ghost predicate CalledFor(w: World, key: DetailKey) {
    var told, target, actor := key.group.user, key.group.target, key.actor;
    match key.group.kind
    case LikeVideo =>
      && target in w.videos && w.videos[target] == told
      && exists id :: id in w.likes && w.likes[id].onVideo && w.likes[id].target == target && w.likes[id].user == actor
    case LikeComment =>
      && target in w.comments && w.comments[target].commenter == told
      && exists id :: id in w.likes && !w.likes[id].onVideo && w.likes[id].target == target && w.likes[id].user == actor
    case Comment =>
      && target in w.comments && w.comments[target].commenter == actor != 0 && w.comments[target].replyTo == 0
      && w.comments[target].video in w.videos && w.videos[w.comments[target].video] == told
    case Reply =>
      target in w.comments && w.comments[target].commenter == actor != 0 && w.comments[target].replyTo == told
    case Follow =>
      && target == actor != 0
      && exists id :: id in w.follows && w.follows[id].follower == actor && w.follows[id].following == told
  }

  /** The tables call for a notification if and only if a row of theirs is behind it, and the one told has an account
      and is not the one who did it. */
  lemma WantedExactlyWhenCalledFor(w: World, key: DetailKey)
    ensures key in Wanted(w) <==>
              CalledFor(w, key) && key.group.user in w.users && key.group.user !in {0, key.actor}
  {
    if key in Wanted(w) {
      WantedIsCalledFor(w, key);
    }
    if CalledFor(w, key) && key.group.user in w.users && key.group.user !in {0, key.actor} {
      CalledForIsWanted(w, key);
    }
  }

  lemma WantedIsCalledFor(w: World, key: DetailKey)
    requires key in Wanted(w)
    ensures CalledFor(w, key)
  {
  }

  lemma CalledForIsWanted(w: World, key: DetailKey)
    requires CalledFor(w, key) && key.group.user in w.users && key.group.user !in {0, key.actor}
    ensures key in Wanted(w)
  {
    match key.group.kind
    case LikeVideo =>
      var id :| id in w.likes && w.likes[id].onVideo && w.likes[id].target == key.group.target
        && w.likes[id].user == key.actor;
      assert OutcomeOf(w, Likes, id) == Told(key, w.likes[id].at);
    case LikeComment =>
      var id :| id in w.likes && !w.likes[id].onVideo && w.likes[id].target == key.group.target
        && w.likes[id].user == key.actor;
      assert OutcomeOf(w, Likes, id) == Told(key, w.likes[id].at);
    case Follow =>
      var id :| id in w.follows && w.follows[id].follower == key.actor && w.follows[id].following == key.group.user;
      assert OutcomeOf(w, Follows, id) == Told(key, w.follows[id].at);
    case _ =>
      assert OutcomeOf(w, Comments, key.group.target) == Told(key, w.comments[key.group.target].at);
  }

  // ------------------------------------------------------------------ what Backfill does

  datatype Stats = Stats(likeVideo: nat, likeComment: nat, comment: nat, reply: nat, follow: nat, skippedActor: nat, skippedMissing: nat)

  const NO_STATS := Stats(0, 0, 0, 0, 0, 0, 0)

  function Credit(stats: Stats, kind: Kind): Stats {
    match kind
    case LikeVideo => stats.(likeVideo := stats.likeVideo + 1)
    case LikeComment => stats.(likeComment := stats.likeComment + 1)
    case Comment => stats.(comment := stats.comment + 1)
    case Reply => stats.(reply := stats.reply + 1)
    case Follow => stats.(follow := stats.follow + 1)
  }

  /** All new notifications. */
  function Total(stats: Stats): nat {
    stats.likeVideo + stats.likeComment + stats.comment + stats.reply + stats.follow
  }

  function Handle(db: Db, stats: Stats, outcome: Outcome): (Db, Stats) {
    match outcome
    case Missing => (db, stats.(skippedMissing := stats.skippedMissing + 1))
    case Gone => (db, stats.(skippedActor := stats.skippedActor + 1))
    case Silent => (db, stats)
    case Told(key, at) =>
      var (after, inserted) := NotifyOnce(db, key, at);
      (after, if inserted then Credit(stats, key.group.kind) else stats)
  }

  function Fill(db: Db, stats: Stats, outcomes: seq<Outcome>): (Db, Stats) {
    if outcomes == [] then (db, stats)
    else
      var n := |outcomes| - 1;
      var (before, counted) := Fill(db, stats, outcomes[..n]);
      Handle(before, counted, outcomes[n])
  }

  function OutcomesOf(w: World, t: Table, ids: seq<Id>): (r: seq<Outcome>)
    requires forall id :: id in ids ==> id in Ids(w, t)
    ensures |r| == |ids|
    ensures forall i :: 0 <= i < |ids| ==> r[i] == OutcomeOf(w, t, ids[i])
  {
    if ids == [] then []
    else
      var n := |ids| - 1;
      OutcomesOf(w, t, ids[..n]) + [OutcomeOf(w, t, ids[n])]
  }

  predicate Less(a: Id, b: Id) { a < b }

  lemma LessIsTotal()
    ensures StrictTotal(Less)
  {
  }

  /** A table's row IDs, lowest first. */
  ghost function Ordered(w: World, t: Table): (r: seq<Id>)
    ensures Ranked(Less, r) && forall id :: id in r <==> id in Ids(w, t)
  {
    LessIsTotal();
    var r := Rank<Id>(Less, Ids(w, t));
    assert forall id :: id in r <==> id in Elems(r);
    r
  }

  /** The whole of Backfill: likes, then comments, then follows. */
  ghost function AllOutcomes(w: World): seq<Outcome> {
    OutcomesOf(w, Likes, Ordered(w, Likes)) + OutcomesOf(w, Comments, Ordered(w, Comments)) + OutcomesOf(w, Follows, Ordered(w, Follows))
  }

  ghost function Backfilled(w: World, db: Db): (Db, Stats) { Fill(db, NO_STATS, AllOutcomes(w)) }

  lemma {:induction false} FillConcat(db: Db, stats: Stats, a: seq<Outcome>, b: seq<Outcome>)
    ensures var (mid, counted) := Fill(db, stats, a); Fill(db, stats, a + b) == Fill(mid, counted, b)
  {
    if b == [] {
      assert a + b == a;
    } else {
      var n := |b| - 1;
      FillConcat(db, stats, a, b[..n]);
      assert (a + b)[..|a + b| - 1] == a + b[..n];
    }
  }

  // ------------------------------------------------------------------ exactly the missing ones, once

  function KeysIn(outcomes: seq<Outcome>): set<DetailKey> {
    set i | 0 <= i < |outcomes| && outcomes[i].Told? :: outcomes[i].key
  }

  lemma KeysSnoc(outcomes: seq<Outcome>)
    requires outcomes != []
    ensures var n := |outcomes| - 1;
            KeysIn(outcomes) == KeysIn(outcomes[..n]) + if outcomes[n].Told? then {outcomes[n].key} else {}
  {
    var n := |outcomes| - 1;
    forall i | 0 <= i < n ensures outcomes[..n][i] == outcomes[i] {}
    forall key | key in KeysIn(outcomes)
      ensures key in KeysIn(outcomes[..n]) || (outcomes[n].Told? && outcomes[n].key == key)
    {
      var i :| 0 <= i < |outcomes| && outcomes[i].Told? && outcomes[i].key == key;
      if i < n { assert outcomes[..n][i].key == key; }
    }
    forall key | key in KeysIn(outcomes[..n]) ensures key in KeysIn(outcomes) {
      var i :| 0 <= i < n && outcomes[..n][i].Told? && outcomes[..n][i].key == key;
      assert outcomes[i].key == key;
    }
  }

  lemma NotifyAddsOne(db: Db, key: DetailKey, at: nat)
    ensures var (after, inserted) := NotifyOnce(db, key, at);
            after.details.Keys == db.details.Keys + {key} && (inserted <==> key !in db.details)
  {
  }

  lemma HandleAddsOne(db: Db, stats: Stats, outcome: Outcome)
    ensures var (after, counted) := Handle(db, stats, outcome);
            && after.details.Keys == db.details.Keys + (if outcome.Told? then {outcome.key} else {})
            && Total(counted) == Total(stats) + (if outcome.Told? && outcome.key !in db.details then 1 else 0)
  {
  }

  /** Going through any list of outcomes adds exactly the keys that were missing and counts each once. */
  lemma {:induction false} FillAddsTheMissing(db: Db, stats: Stats, outcomes: seq<Outcome>)
    ensures Fill(db, stats, outcomes).0.details.Keys == db.details.Keys + KeysIn(outcomes)
    ensures Total(Fill(db, stats, outcomes).1) == Total(stats) + |KeysIn(outcomes) - db.details.Keys|
  {
    if outcomes == [] {
      assert KeysIn(outcomes) - db.details.Keys == {};
    } else {
      var n := |outcomes| - 1;
      FillAddsTheMissing(db, stats, outcomes[..n]);
      KeysSnoc(outcomes);
      var (before, counted) := Fill(db, stats, outcomes[..n]);
      OneMore(before, counted, outcomes[n], db.details.Keys, KeysIn(outcomes[..n]), Total(stats));
    }
  }

  lemma OneMore(before: Db, counted: Stats, outcome: Outcome, had: set<DetailKey>, told: set<DetailKey>, total: nat)
    requires before.details.Keys == had + told && Total(counted) == total + |told - had|
    ensures var more := told + if outcome.Told? then {outcome.key} else {};
            && Handle(before, counted, outcome).0.details.Keys == had + more
            && Total(Handle(before, counted, outcome).1) == total + |more - had|
  {
    HandleAddsOne(before, counted, outcome);
    if outcome.Told? {
      AddOne(told, had, outcome.key);
    } else {
      assert told + {} == told;
    }
  }

  lemma AddOne<T>(a: set<T>, b: set<T>, x: T)
    ensures |a + {x} - b| == |a - b| + if x in a + b then 0 else 1
  {
    if x in a + b {
      assert a + {x} - b == a - b;
    } else {
      assert a + {x} - b == (a - b) + {x};
    }
  }

  lemma KeysOfTable(w: World, t: Table)
    ensures KeysIn(OutcomesOf(w, t, Ordered(w, t))) == WantedBy(w, t)
  {
    var ids := Ordered(w, t);
    var outcomes := OutcomesOf(w, t, ids);
    forall key | key in WantedBy(w, t) ensures key in KeysIn(outcomes) {
      var id :| id in Ids(w, t) && OutcomeOf(w, t, id).Told? && OutcomeOf(w, t, id).key == key;
      var i :| 0 <= i < |ids| && ids[i] == id;
      assert outcomes[i].key == key;
    }
    forall key | key in KeysIn(outcomes) ensures key in WantedBy(w, t) {
      var i :| 0 <= i < |outcomes| && outcomes[i].Told? && outcomes[i].key == key;
      assert ids[i] in ids;
    }
  }

  lemma KeysConcat(a: seq<Outcome>, b: seq<Outcome>)
    ensures KeysIn(a + b) == KeysIn(a) + KeysIn(b)
  {
    forall key | key in KeysIn(a) + KeysIn(b) ensures key in KeysIn(a + b) {
      if key in KeysIn(a) {
        var i :| 0 <= i < |a| && a[i].Told? && a[i].key == key;
        assert (a + b)[i] == a[i];
      } else {
        var i :| 0 <= i < |b| && b[i].Told? && b[i].key == key;
        assert (a + b)[|a| + i] == b[i];
      }
    }
    forall key | key in KeysIn(a + b) ensures key in KeysIn(a) + KeysIn(b) {
      var i :| 0 <= i < |a + b| && (a + b)[i].Told? && (a + b)[i].key == key;
      if i < |a| { assert a[i].key == key; } else { assert b[i - |a|].key == key; }
    }
  }

  lemma AllKeys(w: World)
    ensures KeysIn(AllOutcomes(w)) == Wanted(w)
  {
    var likes, comments, follows :=
      OutcomesOf(w, Likes, Ordered(w, Likes)), OutcomesOf(w, Comments, Ordered(w, Comments)), OutcomesOf(w, Follows, Ordered(w, Follows));
    KeysOfTable(w, Likes);
    KeysOfTable(w, Comments);
    KeysOfTable(w, Follows);
    KeysConcat(likes, comments);
    KeysConcat(likes + comments, follows);
  }

  /** Backfill leaves every interaction the tables call for notified, adds nothing else, and its five numbers
      add up to the notifications that were missing, each counted once. */
  lemma BackfillAddsExactlyTheMissing(w: World, db: Db)
    ensures Backfilled(w, db).0.details.Keys == db.details.Keys + Wanted(w)
    ensures Total(Backfilled(w, db).1) == |Wanted(w) - db.details.Keys|
  {
    FillAddsTheMissing(db, NO_STATS, AllOutcomes(w));
    AllKeys(w);
  }

  function NumberOf(stats: Stats, kind: Kind): nat {
    match kind
    case LikeVideo => stats.likeVideo
    case LikeComment => stats.likeComment
    case Comment => stats.comment
    case Reply => stats.reply
    case Follow => stats.follow
  }

  function OfKind(keys: set<DetailKey>, kind: Kind): set<DetailKey> { set key | key in keys && key.group.kind == kind }

  lemma HandleCountsKind(db: Db, stats: Stats, outcome: Outcome, kind: Kind)
    ensures NumberOf(Handle(db, stats, outcome).1, kind) == NumberOf(stats, kind) +
              if outcome.Told? && outcome.key !in db.details && outcome.key.group.kind == kind then 1 else 0
  {
  }

  lemma {:induction false} FillCountsKind(db: Db, stats: Stats, outcomes: seq<Outcome>, kind: Kind)
    ensures NumberOf(Fill(db, stats, outcomes).1, kind) ==
              NumberOf(stats, kind) + |OfKind(KeysIn(outcomes) - db.details.Keys, kind)|
  {
    if outcomes == [] {
      assert OfKind(KeysIn(outcomes) - db.details.Keys, kind) == {};
    } else {
      var n := |outcomes| - 1;
      FillCountsKind(db, stats, outcomes[..n], kind);
      FillAddsTheMissing(db, stats, outcomes[..n]);
      var (before, counted) := Fill(db, stats, outcomes[..n]);
      HandleCountsKind(before, counted, outcomes[n], kind);
      KeysSnoc(outcomes);
      OneMoreOfKind(KeysIn(outcomes[..n]), db.details.Keys, outcomes[n], kind);
    }
  }

  lemma OneMoreOfKind(told: set<DetailKey>, had: set<DetailKey>, outcome: Outcome, kind: Kind)
    ensures var more := told + if outcome.Told? then {outcome.key} else {};
            |OfKind(more - had, kind)| == |OfKind(told - had, kind)| +
              if outcome.Told? && outcome.key !in had + told && outcome.key.group.kind == kind then 1 else 0
  {
    if outcome.Told? {
      AddOneOfKind(told, had, outcome.key, kind);
    } else {
      assert told + {} == told;
    }
  }

  lemma AddOneOfKind(told: set<DetailKey>, had: set<DetailKey>, key: DetailKey, kind: Kind)
    ensures |OfKind(told + {key} - had, kind)| ==
              |OfKind(told - had, kind)| + if key !in had + told && key.group.kind == kind then 1 else 0
  {
    var before, after := OfKind(told - had, kind), OfKind(told + {key} - had, kind);
    if key !in had + told && key.group.kind == kind {
      assert key !in before && after == before + {key};
    } else {
      assert after == before;
    }
  }

  /** Each of the five numbers is that of its kind. */
  lemma BackfillReportsKinds(w: World, db: Db, kind: Kind)
    ensures NumberOf(Backfilled(w, db).1, kind) == |OfKind(Wanted(w) - db.details.Keys, kind)|
  {
    FillCountsKind(db, NO_STATS, AllOutcomes(w), kind);
    AllKeys(w);
  }

  function RowsWith(w: World, t: Table, ids: seq<Id>, outcome: Outcome): set<Id>
    requires forall id :: id in ids ==> id in Ids(w, t)
  {
    set id | id in ids && OutcomeOf(w, t, id) == outcome
  }

  lemma HandleSkips(db: Db, stats: Stats, outcome: Outcome)
    ensures var counted := Handle(db, stats, outcome).1;
            && counted.skippedMissing == stats.skippedMissing + (if outcome == Missing then 1 else 0)
            && counted.skippedActor == stats.skippedActor + (if outcome == Gone then 1 else 0)
  {
  }

  /** Skipped rows are counted row by row. */
  lemma {:induction false} FillCountsSkipped(w: World, t: Table, db: Db, stats: Stats, ids: seq<Id>)
    requires Ranked(Less, ids) && forall id :: id in ids ==> id in Ids(w, t)
    ensures var counted := Fill(db, stats, OutcomesOf(w, t, ids)).1;
            && counted.skippedMissing == stats.skippedMissing + |RowsWith(w, t, ids, Missing)|
            && counted.skippedActor == stats.skippedActor + |RowsWith(w, t, ids, Gone)|
  {
    if ids == [] {
      assert RowsWith(w, t, ids, Missing) == {} && RowsWith(w, t, ids, Gone) == {};
    } else {
      var n := |ids| - 1;
      FillCountsSkipped(w, t, db, stats, ids[..n]);
      FillSnoc(w, t, ids, db, stats, n);
      assert ids[..n + 1] == ids;
      var (mid, counted) := Fill(db, stats, OutcomesOf(w, t, ids[..n]));
      HandleSkips(mid, counted, OutcomeOf(w, t, ids[n]));
      OneMoreRow(w, t, ids, Missing);
      OneMoreRow(w, t, ids, Gone);
    }
  }

  lemma LastIsNew(ids: seq<Id>)
    requires ids != [] && Ranked(Less, ids)
    ensures var n := |ids| - 1;
            ids[n] !in ids[..n] && forall id :: id in ids <==> id in ids[..n] || id == ids[n]
  {
    var n := |ids| - 1;
    assert ids == ids[..n] + [ids[n]];
    forall i | 0 <= i < n ensures ids[..n][i] != ids[n] { assert Less(ids[i], ids[n]); }
  }

  lemma OneMoreRow(w: World, t: Table, ids: seq<Id>, outcome: Outcome)
    requires ids != [] && Ranked(Less, ids) && forall id :: id in ids ==> id in Ids(w, t)
    ensures var n := |ids| - 1;
            |RowsWith(w, t, ids, outcome)| == |RowsWith(w, t, ids[..n], outcome)| + if OutcomeOf(w, t, ids[n]) == outcome then 1 else 0
  {
    var n := |ids| - 1;
    LastIsNew(ids);
    if OutcomeOf(w, t, ids[n]) == outcome {
      assert RowsWith(w, t, ids, outcome) == RowsWith(w, t, ids[..n], outcome) + {ids[n]};
    } else {
      assert RowsWith(w, t, ids, outcome) == RowsWith(w, t, ids[..n], outcome);
    }
  }

  /** Likes and comments that nobody is to be told of, and rows of any table whose receiver has no account. */
  function Unresolved(w: World, t: Table): set<Id> { set id | id in Ids(w, t) && KeyOf(w, t, id).None? }

  function WithoutAccount(w: World, t: Table): set<Id> {
    set id | id in Ids(w, t) && KeyOf(w, t, id).Some? && KeyOf(w, t, id).value.group.user !in w.users
  }

  lemma SkippedRows(w: World, t: Table, ids: seq<Id>)
    requires forall id :: id in ids <==> id in Ids(w, t)
    ensures RowsWith(w, t, ids, Missing) == if t == Follows then {} else Unresolved(w, t)
    ensures RowsWith(w, t, ids, Gone) == WithoutAccount(w, t)
  {
    forall id | id in ids
      ensures OutcomeOf(w, t, id) == Missing <==> t != Follows && id in Unresolved(w, t)
      ensures OutcomeOf(w, t, id) == Gone <==> id in WithoutAccount(w, t)
    {}
  }

  lemma TableCountsSkipped(w: World, t: Table, db: Db, stats: Stats)
    ensures var counted := Fill(db, stats, OutcomesOf(w, t, Ordered(w, t))).1;
            && counted.skippedMissing == stats.skippedMissing + (if t == Follows then 0 else |Unresolved(w, t)|)
            && counted.skippedActor == stats.skippedActor + |WithoutAccount(w, t)|
  {
    FillCountsSkipped(w, t, db, stats, Ordered(w, t));
    SkippedRows(w, t, Ordered(w, t));
  }

  /** The two numbers of what was passed over: likes and comments with nobody to tell, and rows of any table whose
      receiver has no account. */
  lemma BackfillReportsSkipped(w: World, db: Db)
    ensures var stats := Backfilled(w, db).1;
            && stats.skippedMissing == |Unresolved(w, Likes)| + |Unresolved(w, Comments)|
            && stats.skippedActor == |WithoutAccount(w, Likes)| + |WithoutAccount(w, Comments)| + |WithoutAccount(w, Follows)|
  {
    ThreeTables(w, db);
    var (db1, stats1) := Fill(db, NO_STATS, OutcomesOf(w, Likes, Ordered(w, Likes)));
    var (db2, stats2) := Fill(db1, stats1, OutcomesOf(w, Comments, Ordered(w, Comments)));
    TableCountsSkipped(w, Likes, db, NO_STATS);
    TableCountsSkipped(w, Comments, db1, stats1);
    TableCountsSkipped(w, Follows, db2, stats2);
  }

  lemma {:induction false} NothingToFill(db: Db, stats: Stats, outcomes: seq<Outcome>)
    requires KeysIn(outcomes) <= db.details.Keys
    ensures Fill(db, stats, outcomes).0 == db
  {
    if outcomes != [] {
      KeysSnoc(outcomes);
      NothingToFill(db, stats, outcomes[..|outcomes| - 1]);
    }
  }

  /** A second Backfill, even with interactions withdrawn in between, changes nothing and reports nothing new. */
  lemma BackfillTwiceIsOnce(w: World, w': World, db: Db)
    requires Wanted(w') <= Wanted(w)
    ensures Backfilled(w', Backfilled(w, db).0).0 == Backfilled(w, db).0
    ensures Total(Backfilled(w', Backfilled(w, db).0).1) == 0
  {
    var once := Backfilled(w, db).0;
    BackfillAddsExactlyTheMissing(w, db);
    BackfillAddsExactlyTheMissing(w', once);
    assert Wanted(w') - once.details.Keys == {};
    AllKeys(w');
    NothingToFill(once, NO_STATS, AllOutcomes(w'));
  }

  /** Whether an interaction is notified live, at whatever time its handler takes, or by Backfill makes no
      difference to who is told of what: the same details are there, and each counts once on one side. */
  lemma LiveOrAfterwards(w: World, t: Table, id: Id, db: Db, at: nat)
    requires id in Ids(w, t) && OutcomeOf(w, t, id).Told?
    ensures var (live, inserted) := NotifyOnce(db, KeyOf(w, t, id).value, at);
            && Backfilled(w, live).0.details.Keys == Backfilled(w, db).0.details.Keys
            && Total(Backfilled(w, live).1) + (if inserted then 1 else 0) == Total(Backfilled(w, db).1)
  {
    var (live, inserted) := NotifyOnce(db, KeyOf(w, t, id).value, at);
    ToldIsWanted(w, t, id);
    NotifyAddsOne(db, KeyOf(w, t, id).value, at);
    ToldThenFilled(w, KeyOf(w, t, id).value, db, live);
  }

  lemma ToldIsWanted(w: World, t: Table, id: Id)
    requires id in Ids(w, t) && OutcomeOf(w, t, id).Told?
    ensures KeyOf(w, t, id).Some? && KeyOf(w, t, id).value in Wanted(w)
  {
    assert OutcomeOf(w, t, id).key in WantedBy(w, t);
  }

  lemma ToldThenFilled(w: World, key: DetailKey, db: Db, live: Db)
    requires key in Wanted(w) && live.details.Keys == db.details.Keys + {key}
    ensures Backfilled(w, live).0.details.Keys == Backfilled(w, db).0.details.Keys
    ensures Total(Backfilled(w, live).1) + (if key in db.details then 0 else 1) == Total(Backfilled(w, db).1)
  {
    BackfillAddsExactlyTheMissing(w, db);
    BackfillAddsExactlyTheMissing(w, live);
    TakeOne(Wanted(w), db.details.Keys, key);
  }

  lemma TakeOne<T>(wanted: set<T>, had: set<T>, x: T)
    requires x in wanted
    ensures had + {x} + wanted == had + wanted
    ensures |wanted - (had + {x})| + (if x in had then 0 else 1) == |wanted - had|
  {
    if x in had {
      assert had + {x} == had;
    } else {
      assert wanted - had == (wanted - (had + {x})) + {x};
    }
  }

  /** Cleanup deletes details for good, and with them the memory that they were notified: the next Backfill
      notifies again every interaction still in the tables whose thread was cleaned up. */
  lemma BackfillBringsBackWhatCleanupDeleted(w: World, db: Db, ids: set<nat>)
    requires Wanted(w) <= db.details.Keys
    ensures Wanted(w) <= Backfilled(w, DeleteThreads(db, ids)).0.details.Keys
    ensures Total(Backfilled(w, DeleteThreads(db, ids)).1) == |set d | d in Wanted(w) && db.details[d].thread in ids|
  {
    BackfillAddsExactlyTheMissing(w, DeleteThreads(db, ids));
    WhatCleanupDeleted(Wanted(w), db, ids);
  }

  lemma WhatCleanupDeleted(keys: set<DetailKey>, db: Db, ids: set<nat>)
    requires keys <= db.details.Keys
    ensures keys - DeleteThreads(db, ids).details.Keys == set d | d in keys && db.details[d].thread in ids
  {
  }

  // ------------------------------------------------------------------ Backfill is a run of the notification machine

  lemma {:induction false} RunJoin(s: State, a: seq<Step>, mid: State, b: seq<Step>, end: State)
    requires Run(s, a, mid) && Run(mid, b, end)
    ensures Run(s, a + b, end)
    decreases |a|
  {
    if a == [] {
      assert a + b == b;
    } else {
      RunJoin(Apply(s, a[0]), a[1..], mid, b, end);
      assert (a + b)[1..] == a[1..] + b;
    }
  }

  lemma RunStep(s: State, step: Step, rest: seq<Step>, end: State)
    requires Enabled(s, step) && Run(Apply(s, step), rest, end)
    ensures Run(s, [step] + rest, end)
  {
    assert ([step] + rest)[1..] == rest;
  }

  lemma NotifyIsARun(s: State, task: nat, key: DetailKey, at: nat) returns (steps: seq<Step>)
    requires task !in s.tasks
    ensures Run(s, steps, s.(db := NotifyOnce(s.db, key, at).0))
  {
    if key in s.db.details {
      steps := [];
    } else {
      NotifyIsThreeSteps(s, task, key, at);
      var s1 := Apply(s, Begin(task, key, at));
      var s2 := Apply(s1, Upsert(task));
      var s3 := Apply(s2, Bind(task));
      assert Run(s3, [], s3);
      RunStep(s2, Bind(task), [], s3);
      assert [Bind(task)] + [] == [Bind(task)];
      RunStep(s1, Upsert(task), [Bind(task)], s3);
      steps := [Begin(task, key, at)] + ([Upsert(task)] + [Bind(task)]);
      RunStep(s, Begin(task, key, at), [Upsert(task)] + [Bind(task)], s3);
    }
  }

  lemma {:induction false} FillIsARun(s: State, task: nat, stats: Stats, outcomes: seq<Outcome>) returns (steps: seq<Step>)
    requires task !in s.tasks
    ensures Run(s, steps, s.(db := Fill(s.db, stats, outcomes).0))
  {
    if outcomes == [] {
      steps := [];
    } else {
      var n := |outcomes| - 1;
      var mid := s.(db := Fill(s.db, stats, outcomes[..n]).0);
      var before := FillIsARun(s, task, stats, outcomes[..n]);
      if outcomes[n].Told? {
        var last := NotifyIsARun(mid, task, outcomes[n].key, outcomes[n].at);
        RunJoin(s, before, mid, last, s.(db := Fill(s.db, stats, outcomes).0));
        steps := before + last;
      } else {
        steps := before;
      }
    }
  }

  /** So everything that holds of every run holds after a Backfill on top of any run: whatever Notifys are
      under way beside it, the counts stay between the bindings and the details. */
  lemma BackfillKeepsTheCounts(s: State, task: nat, w: World, group: Group, k: ThreadKey)
    requires Reachable(s) && task !in s.tasks
    ensures var db := Backfilled(w, s.db).0;
            && SumCounts(db, ThreadsOf(db, group)) <= |DetailsOf(db, group)|
            && (k in db.threads ==> |Bound(db, k)| <= db.threads[k].actorCount)
  {
    var end := s.(db := Backfilled(w, s.db).0);
    var before :| Run(START, before, s);
    var steps := FillIsARun(s, task, NO_STATS, AllOutcomes(w));
    RunJoin(START, before, s, steps, end);
    assert Reachable(end);
    CountsAtMostDetails(end, group);
    if k in end.db.threads { BoundAtMostCount(end, k); }
  }

  // ------------------------------------------------------------------ the logic

  datatype Handled = Done | Permanent

  class Logic {
    const repo: Repo

    constructor (repo: Repo)
      ensures this.repo == repo
    {
      this.repo := repo;
    }

    /** `onVideo` is None for a target of neither kind. */
    method HandleLikeSwitched(w: World, liked: bool, onVideo: Option<bool>, target: Id, operator: Id, occurredAt: Option<nat>, now: nat)
      returns (outcome: Handled)
      modifies repo
      ensures outcome == if liked && (operator == 0 || target == 0) then Permanent else Done
      ensures var key := if !liked || outcome == Permanent || onVideo.None? then None
                         else if onVideo.value then ResolveVideoLike(w, target, operator)
                         else ResolveCommentLike(w, target, operator);
              repo.View() == if key.None? then old(repo.View())
                             else NotifyOnce(old(repo.View()), key.value, if occurredAt.Some? then occurredAt.value else now).0
      ensures repo.details.Keys == old(repo.details.Keys) +
                (if !liked || operator == 0 || target == 0 then {}
                 else if onVideo == Some(true) && target in w.videos && w.videos[target] !in {0, operator}
                 then {DetailKey(Group(w.videos[target], LikeVideo, target), operator)}
                 else if onVideo == Some(false) && target in w.comments
                   && w.comments[target].commenter !in {0, operator}
                 then {DetailKey(Group(w.comments[target].commenter, LikeComment, target), operator)}
                 else {})
    {
      if !liked {
        return Done;
      }
      if operator == 0 || target == 0 {
        return Permanent;
      }
      if onVideo.None? {
        return Done;
      }
      var key: Option<DetailKey>;
      if onVideo.value {
        key := ResolveVideoLike(w, target, operator);
      } else {
        key := ResolveCommentLike(w, target, operator);
      }
      if key.None? {
        return Done;
      }
      var inserted := repo.Notify(key.value, occurredAt, now);
      return Done;
    }

    method HandleCommentCreated(w: World, comment: Id, occurredAt: Option<nat>, now: nat) returns (outcome: Handled)
      modifies repo
      ensures outcome == if comment == 0 then Permanent else Done
      ensures var key := if comment == 0 then None else ResolveComment(w, comment);
              repo.View() == if key.None? then old(repo.View())
                             else NotifyOnce(old(repo.View()), key.value, if occurredAt.Some? then occurredAt.value else now).0
      ensures repo.details.Keys == old(repo.details.Keys) +
                if comment == 0 || comment !in w.comments || w.comments[comment].commenter == 0 then {}
                else
                  var row := w.comments[comment];
                  if row.replyTo > 0 && row.replyTo != row.commenter
                  then {DetailKey(Group(row.replyTo, Reply, comment), row.commenter)}
                  else if row.replyTo == 0 && row.video in w.videos && w.videos[row.video] !in {0, row.commenter}
                  then {DetailKey(Group(w.videos[row.video], Comment, comment), row.commenter)}
                  else {}
    {
      if comment == 0 {
        return Permanent;
      }
      var key := ResolveComment(w, comment);
      if key.None? {
        return Done;
      }
      var inserted := repo.Notify(key.value, occurredAt, now);
      return Done;
    }

    method HandleFollowSwitched(followed: bool, follower: Id, following: Id, now: nat) returns (outcome: Handled)
      modifies repo
      ensures outcome == if followed && (follower == 0 || following == 0) then Permanent else Done
      ensures var key := if followed then ResolveFollow(follower, following) else None;
              repo.View() == if key.None? then old(repo.View()) else NotifyOnce(old(repo.View()), key.value, now).0
      ensures repo.details.Keys == old(repo.details.Keys) +
                if followed && follower != 0 && following !in {0, follower}
                then {DetailKey(Group(following, Follow, follower), follower)} else {}
    {
      if !followed {
        return Done;
      }
      if follower == 0 || following == 0 {
        return Permanent;
      }
      var key := ResolveFollow(follower, following);
      if key.None? {
        return Done;
      }
      var inserted := repo.Notify(key.value, Some(now), now);
      return Done;
    }

    /** One page of a table: the first `limit` row IDs after the cursor. */
    method PageRows(w: World, t: Table, afterID: Id, limit: nat) returns (page: seq<Id>)
      ensures page == Take(After(w, t, afterID), limit)
    {
      LessIsTotal();
      page := [];
      var left := Ids(w, t);
      while left != {}
        invariant left <= Ids(w, t) && Ranked(Less, page)
        invariant forall id :: id in page <==> id in Ids(w, t) && id > afterID && id !in left
        decreases left
      {
        var id: Id :| id in left;
        left := left - {id};
        if id > afterID {
          InsertRanked<Id>(Less, page, id);
          page := Insert<Id>(Less, page, id);
        }
      }
      SameIds(page, After(w, t, afterID));
      page := Take(page, limit);
    }

    method HandleRow(w: World, t: Table, id: Id, stats: Stats) returns (counted: Stats)
      requires id in Ids(w, t)
      modifies repo
      ensures (repo.View(), counted) == Handle(old(repo.View()), stats, OutcomeOf(w, t, id))
    {
      counted := stats;
      var key := KeyOf(w, t, id);
      if key.None? {
        if t != Follows {
          counted := stats.(skippedMissing := stats.skippedMissing + 1);
        }
        return;
      }
      if key.value.group.user !in w.users {
        counted := stats.(skippedActor := stats.skippedActor + 1);
        return;
      }
      var inserted := repo.Notify(key.value, Some(TimeOf(w, t, id)), 0);
      if inserted {
        counted := Credit(stats, key.value.group.kind);
      }
    }

    /** The rows of one page. */
    method FillPage(w: World, t: Table, page: seq<Id>, stats: Stats) returns (counted: Stats)
      requires forall id :: id in page ==> id in Ids(w, t)
      modifies repo
      ensures (repo.View(), counted) == Fill(old(repo.View()), stats, OutcomesOf(w, t, page))
    {
      counted := stats;
      for i := 0 to |page|
        invariant (repo.View(), counted) == Fill(old(repo.View()), stats, OutcomesOf(w, t, page[..i]))
      {
        FillSnoc(w, t, page, old(repo.View()), stats, i);
        counted := HandleRow(w, t, page[i], counted);
      }
      assert page[..|page|] == page;
    }

    /** The loop over one table, page by page behind a cursor. */
    method FillFrom(w: World, t: Table, batch: nat, stats: Stats) returns (counted: Stats)
      requires batch > 0 && 0 !in Ids(w, t)
      modifies repo
      ensures (repo.View(), counted) == Fill(old(repo.View()), stats, OutcomesOf(w, t, Ordered(w, t)))
    {
      ghost var done: seq<Id> := [];
      var afterID: Id := 0;
      counted := stats;
      AfterNone(w, t);
      while true
        invariant done + After(w, t, afterID) == Ordered(w, t)
        invariant (repo.View(), counted) == Fill(old(repo.View()), stats, OutcomesOf(w, t, done))
        decreases |After(w, t, afterID)|
      {
        var page := PageRows(w, t, afterID, batch);
        if |page| == 0 {
          assert done + [] == done;
          return;
        }
        PageLeavesRest(w, t, afterID, done, page);
        FillJoin(w, t, old(repo.View()), stats, done, page);
        counted := FillPage(w, t, page, counted);
        done := done + page;
        afterID := page[|page| - 1];
        if |page| < batch {
          assert done + [] == done;
          return;
        }
      }
    }

    method Backfill(w: World, batchSize: int) returns (stats: Stats)
      requires forall t: Table :: 0 !in Ids(w, t)
      modifies repo
      ensures (repo.View(), stats) == Backfilled(w, old(repo.View()))
    {
      var batch := batchSize;
      if batch <= 0 {
        batch := 500;
      }
      stats := FillFrom(w, Likes, batch, NO_STATS);
      stats := FillFrom(w, Comments, batch, stats);
      stats := FillFrom(w, Follows, batch, stats);
      ThreeTables(w, old(repo.View()));
    }
  }

  /** The row IDs behind a cursor, lowest first. */
  ghost function After(w: World, t: Table, afterID: Id): (r: seq<Id>)
    ensures Ranked(Less, r) && forall id :: id in r <==> id in Ids(w, t) && id > afterID
  {
    LessIsTotal();
    var r := Rank<Id>(Less, set id: Id | id in Ids(w, t) && id > afterID);
    assert forall id :: id in r <==> id in Elems(r);
    r
  }

  lemma SameIds(a: seq<Id>, b: seq<Id>)
    requires Ranked(Less, a) && Ranked(Less, b) && forall id :: id in a <==> id in b
    ensures a == b
  {
    LessIsTotal();
    assert Elems(a) == Elems(b);
    RankedUnique(Less, a, b);
  }

  lemma AfterNone(w: World, t: Table)
    requires 0 !in Ids(w, t)
    ensures [] + After(w, t, 0) == Ordered(w, t)
  {
    SameIds(After(w, t, 0), Ordered(w, t));
  }

  /** Behind the last row of a page are the rows that were behind the page. */
  lemma AfterPage(w: World, t: Table, afterID: Id, n: nat)
    requires 0 < n <= |After(w, t, afterID)|
    ensures After(w, t, After(w, t, afterID)[n - 1]) == After(w, t, afterID)[n..]
  {
    var rest := After(w, t, afterID);
    var last := rest[n - 1];
    assert last in rest;
    forall id ensures id in rest[n..] <==> id in Ids(w, t) && id > last {
      if id in rest {
        var i :| 0 <= i < |rest| && rest[i] == id;
        if i >= n {
          assert rest[n..][i - n] == id && Less(last, rest[i]);
        } else {
          assert i < n - 1 ==> Less(rest[i], last);
          NotLater(rest, n, i);
        }
      }
    }
    SameIds(After(w, t, last), rest[n..]);
  }

  lemma NotLater(all: seq<Id>, n: nat, i: nat)
    requires Ranked(Less, all) && i < n <= |all|
    ensures all[i] !in all[n..]
  {
    forall j | n <= j < |all| ensures all[j] != all[i] { assert Less(all[i], all[j]); }
  }

  lemma PageLeavesRest(w: World, t: Table, afterID: Id, done: seq<Id>, page: seq<Id>)
    requires done + After(w, t, afterID) == Ordered(w, t)
    requires 0 < |page| <= |After(w, t, afterID)| && page == After(w, t, afterID)[..|page|]
    ensures done + page + After(w, t, page[|page| - 1]) == Ordered(w, t)
    ensures After(w, t, page[|page| - 1]) == After(w, t, afterID)[|page|..]
    ensures forall id :: id in done + page ==> id in Ids(w, t)
  {
    AfterPage(w, t, afterID, |page|);
    PartsInOrder(done, page, After(w, t, afterID)[|page|..], After(w, t, afterID), Ordered(w, t));
  }

  lemma PartsInOrder(done: seq<Id>, page: seq<Id>, rest: seq<Id>, after: seq<Id>, all: seq<Id>)
    requires done + after == all && after == page + rest
    ensures done + page + rest == all && forall id :: id in done + page ==> id in all
  {
    forall id | id in done + page ensures id in all {
      assert id in done + page + rest;
    }
  }

  lemma FillSnoc(w: World, t: Table, ids: seq<Id>, db: Db, stats: Stats, i: nat)
    requires i < |ids| && forall id :: id in ids ==> id in Ids(w, t)
    ensures var (mid, counted) := Fill(db, stats, OutcomesOf(w, t, ids[..i]));
            Fill(db, stats, OutcomesOf(w, t, ids[..i + 1])) == Handle(mid, counted, OutcomeOf(w, t, ids[i]))
  {
    var outcomes := OutcomesOf(w, t, ids[..i + 1]);
    assert outcomes[..i] == OutcomesOf(w, t, ids[..i]);
  }

  lemma FillJoin(w: World, t: Table, db: Db, stats: Stats, done: seq<Id>, page: seq<Id>)
    requires forall id :: id in done + page ==> id in Ids(w, t)
    ensures (forall id :: id in done ==> id in Ids(w, t)) && (forall id :: id in page ==> id in Ids(w, t))
    ensures var (mid, counted) := Fill(db, stats, OutcomesOf(w, t, done));
            Fill(db, stats, OutcomesOf(w, t, done + page)) == Fill(mid, counted, OutcomesOf(w, t, page))
  {
    OutcomesConcat(w, t, done, page);
    FillConcat(db, stats, OutcomesOf(w, t, done), OutcomesOf(w, t, page));
  }

  lemma OutcomesConcat(w: World, t: Table, a: seq<Id>, b: seq<Id>)
    requires forall id :: id in a + b ==> id in Ids(w, t)
    ensures (forall id :: id in a ==> id in Ids(w, t)) && (forall id :: id in b ==> id in Ids(w, t))
    ensures OutcomesOf(w, t, a + b) == OutcomesOf(w, t, a) + OutcomesOf(w, t, b)
  {
    assert forall id :: id in a ==> id in a + b;
    assert forall id :: id in b ==> id in a + b;
    assert OutcomesOf(w, t, a + b) == OutcomesOf(w, t, a) + OutcomesOf(w, t, b);
  }

  lemma ThreeTables(w: World, db: Db)
    ensures var (db1, stats1) := Fill(db, NO_STATS, OutcomesOf(w, Likes, Ordered(w, Likes)));
            var (db2, stats2) := Fill(db1, stats1, OutcomesOf(w, Comments, Ordered(w, Comments)));
            Fill(db2, stats2, OutcomesOf(w, Follows, Ordered(w, Follows))) == Backfilled(w, db)
  {
    var likes, comments, follows :=
      OutcomesOf(w, Likes, Ordered(w, Likes)), OutcomesOf(w, Comments, Ordered(w, Comments)), OutcomesOf(w, Follows, Ordered(w, Follows));
    FillConcat(db, NO_STATS, likes, comments);
    FillConcat(db, NO_STATS, likes + comments, follows);
  }
}
