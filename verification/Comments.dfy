/** Comments and the two counters kept beside them: a video's comment_count and a comment's reply_count.
    Requests read rows first and then run one transaction with what they read. */
module Comments {
  import opened Text

  /** parent is 0 for a top-level comment; replyTo is the user whom a reply answers. */
  datatype Comment = Comment(video: Id, commenter: Id, parent: nat, replyTo: Id, replies: nat)
  datatype Video = Video(comments: nat, published: bool)

  /** Comment IDs are handed out from nextId; `known` holds the IDs of all videos there ever were. */
  datatype Db = Db(comments: map<nat, Comment>, videos: map<Id, Video>, nextId: nat, known: set<Id>)

  datatype Error = NotFound | Forbidden | BadRequest
  datatype Result<+T> = Ok(value: T) | Err(error: Error)

  // ------------------------------------------------------------------ transactions

  /** comment_count + delta, or GREATEST(comment_count + delta, 0). */
  function Shifted(count: nat, delta: int): nat {
    if count + delta < 0 then 0 else count + delta
  }

  function Incr(db: Db, video: Id, delta: int): Db {
    if video in db.videos
    then db.(videos := db.videos[video := db.videos[video].(comments := Shifted(db.videos[video].comments, delta))])
    else db
  }

  function Store(db: Db, c: Comment): Db {
    db.(comments := db.comments[db.nextId := c], nextId := db.nextId + 1)
  }

  function CreateTop(db: Db, video: Id, commenter: Id): Db {
    Incr(Store(db, Comment(video, commenter, 0, 0, 0)), video, 1)
  }

  /** Locks the parent, which also checks that it is still there. */
  function CreateReply(db: Db, parent: nat, video: Id, commenter: Id, answered: Id): Result<Db> {
    if parent !in db.comments then Err(NotFound)
    else
      var stored := Store(db, Comment(video, commenter, parent, answered, 0));
      var p := stored.comments[parent];
      Ok(Incr(stored.(comments := stored.comments[parent := p.(replies := p.replies + 1)]), video, 1))
  }

  function DeleteReply(db: Db, comment: nat, parent: nat, video: Id): Db {
    var left := db.comments - {comment};
    var counted := if parent in left && left[parent].replies > 0
                   then left[parent := left[parent].(replies := left[parent].replies - 1)] else left;
    Incr(db.(comments := counted), video, -1)
  }

  function Children(db: Db, parent: nat): set<nat> {
    set c | c in db.comments && db.comments[c].parent == parent
  }

  function DeleteTop(db: Db, comment: nat, video: Id): Result<Db> {
    if comment !in db.comments then Err(NotFound)
    else
      var removed := {comment} + Children(db, comment);
      Ok(Incr(db.(comments := db.comments - removed), video, -|removed|))
  }

  // ------------------------------------------------------------------ requests: a read, then a transaction

  /** What a request carries from its read to its transaction. */
  datatype Intent =
    | WantTop(video: Id, commenter: Id)
    | WantReply(parent: nat, video: Id, commenter: Id, answered: Id)
    | WantDropReply(comment: nat, parent: nat, video: Id)
    | WantDropTop(comment: nat, video: Id)

  /** The reading half of Create: any comment of the video is accepted as parent. */
  function ReadCreate(db: Db, video: Id, parent: nat, replyTo: nat, commenter: Id): Result<Intent> {
    if video !in db.videos || !db.videos[video].published then Err(NotFound)
    else if parent == 0 then Ok(WantTop(video, commenter))
    else if parent !in db.comments then Err(NotFound)
    else if db.comments[parent].video != video then Err(BadRequest)
    else if replyTo > 0 && replyTo != parent && replyTo !in db.comments then Err(NotFound)
    else if replyTo > 0 && replyTo != parent && db.comments[replyTo].video != video then Err(BadRequest)
    else Ok(WantReply(parent, video, commenter, db.comments[if replyTo > 0 then replyTo else parent].commenter))
  }

  /** The reading half of Delete; None when the comment is already gone. */
  function ReadDelete(db: Db, comment: nat, user: Id): Result<Option<Intent>> {
    if comment !in db.comments then Ok(None)
    else
      var c := db.comments[comment];
      if c.commenter != user then Err(Forbidden)
      else if c.parent > 0 then Ok(Some(WantDropReply(comment, c.parent, c.video)))
      else Ok(Some(WantDropTop(comment, c.video)))
  }

  function Commit(db: Db, want: Intent): Result<Db> {
    match want
    case WantTop(video, commenter) => Ok(CreateTop(db, video, commenter))
    case WantReply(parent, video, commenter, answered) => CreateReply(db, parent, video, commenter, answered)
    case WantDropReply(comment, parent, video) => Ok(DeleteReply(db, comment, parent, video))
    case WantDropTop(comment, video) => DeleteTop(db, comment, video)
  }

  /** A database and the requests between their read and their transaction. */
  datatype State = State(db: Db, pending: multiset<Intent>)

  datatype Step =
    | Create(video: Id, parent: nat, replyTo: nat, commenter: Id)
    | Delete(comment: nat, user: Id)
    | Transact(want: Intent)
    | AddVideo(video: Id)
    | Show(video: Id, published: bool)
    | DropVideo(video: Id)
    | Sweep(video: Id)

  predicate Enabled(s: State, step: Step) {
    match step
    case Transact(want) => want in s.pending
    case AddVideo(video) => video !in s.db.known
    case Sweep(video) => video in s.db.known && video !in s.db.videos
    case _ => true
  }

  function Apply(s: State, step: Step): State
    requires Enabled(s, step)
  {
    match step
    case Create(video, parent, replyTo, commenter) =>
      (match ReadCreate(s.db, video, parent, replyTo, commenter)
       case Ok(want) => s.(pending := s.pending + multiset{want})
       case Err(_) => s)
    case Delete(comment, user) =>
      (match ReadDelete(s.db, comment, user)
       case Ok(Some(want)) => s.(pending := s.pending + multiset{want})
       case _ => s)
    case Transact(want) =>
      State(match Commit(s.db, want) case Ok(db) => db case Err(_) => s.db, s.pending - multiset{want})
    case AddVideo(video) =>
      s.(db := s.db.(videos := s.db.videos[video := Video(0, true)], known := s.db.known + {video}))
    case Show(video, published) =>
      if video in s.db.videos then s.(db := s.db.(videos := s.db.videos[video := s.db.videos[video].(published := published)])) else s
    case DropVideo(video) => s.(db := s.db.(videos := s.db.videos - {video}))
    case Sweep(video) =>
      s.(db := s.db.(comments := map c | c in s.db.comments && s.db.comments[c].video != video :: s.db.comments[c]))
  }

  const START := State(Db(map[], map[], 1, {}), multiset{})

  // ------------------------------------------------------------------ the invariant of every interleaving

  function Rows(db: Db, video: Id): set<nat> {
    set c | c in db.comments && db.comments[c].video == video
  }

  /** Counters never exceed what they count. */
  ghost predicate AtMost(db: Db) {
    && (forall v :: v in db.videos ==> db.videos[v].comments <= |Rows(db, v)|)
    && (forall c :: c in db.comments ==> db.comments[c].replies <= |Children(db, c)|)
  }

  ghost predicate Shape(db: Db) {
    && db.nextId > 0 && db.videos.Keys <= db.known
    && (forall c :: c in db.comments ==> 0 < c < db.nextId && db.comments[c].parent < c && db.comments[c].video in db.known)
    && (forall c :: c in db.comments && db.comments[c].parent in db.comments ==>
          db.comments[db.comments[c].parent].video == db.comments[c].video)
  }

  /** What a request read stays true of the rows that are still there. */
  ghost predicate Fits(db: Db, want: Intent) {
    match want
    case WantTop(video, _) => video in db.known
    case WantReply(parent, video, _, _) =>
      0 < parent < db.nextId && video in db.known && (parent in db.comments ==> db.comments[parent].video == video)
    case WantDropReply(comment, parent, video) =>
      && 0 < parent && comment < db.nextId
      && (comment in db.comments ==> db.comments[comment].parent == parent && db.comments[comment].video == video)
    case WantDropTop(comment, video) =>
      comment < db.nextId && (comment in db.comments ==> db.comments[comment].parent == 0 && db.comments[comment].video == video)
  }

  ghost predicate Inv(s: State) {
    Shape(s.db) && AtMost(s.db) && forall want :: want in s.pending ==> Fits(s.db, want)
  }

  lemma RowsOfStore(db: Db, c: Comment, v: Id)
    requires Shape(db)
    ensures |Rows(Store(db, c), v)| == |Rows(db, v)| + if v == c.video then 1 else 0
  {
    assert db.nextId !in Rows(db, v);
    if v == c.video {
      assert Rows(Store(db, c), v) == Rows(db, v) + {db.nextId};
    } else {
      assert Rows(Store(db, c), v) == Rows(db, v);
    }
  }

  lemma ChildrenOfStore(db: Db, c: Comment, p: nat)
    requires Shape(db)
    ensures |Children(Store(db, c), p)| == |Children(db, p)| + if p == c.parent then 1 else 0
  {
    assert db.nextId !in Children(db, p);
    if p == c.parent {
      assert Children(Store(db, c), p) == Children(db, p) + {db.nextId};
    } else {
      assert Children(Store(db, c), p) == Children(db, p);
    }
  }

  lemma NoChildrenYet(db: Db)
    requires Shape(db)
    ensures Children(db, db.nextId) == {}
  {
  }

  /** db' is db but for reply_counts and comment_counts. */
  ghost predicate SameRows(db: Db, db': Db) {
    && db.comments.Keys == db'.comments.Keys
    && forall c :: c in db.comments ==> db'.comments[c] == db.comments[c].(replies := db'.comments[c].replies)
  }

  lemma CountersAside(db: Db, db': Db)
    requires SameRows(db, db')
    ensures forall v :: Rows(db', v) == Rows(db, v)
    ensures forall p :: Children(db', p) == Children(db, p)
    ensures Shape(db) && db'.nextId == db.nextId && db'.videos.Keys == db.videos.Keys && db'.known == db.known ==>
            Shape(db')
  {
  }

  lemma StoreShape(db: Db, c: Comment)
    requires Shape(db) && c.video in db.known && c.parent < db.nextId
    requires c.parent in db.comments ==> db.comments[c.parent].video == c.video
    ensures Shape(Store(db, c))
  {
  }

  lemma CreateTopKeeps(db: Db, video: Id, commenter: Id)
    requires Shape(db) && AtMost(db) && video in db.known
    ensures Shape(CreateTop(db, video, commenter)) && AtMost(CreateTop(db, video, commenter))
  {
    var c := Comment(video, commenter, 0, 0, 0);
    var db' := CreateTop(db, video, commenter);
    StoreShape(db, c);
    CountersAside(Store(db, c), db');
    forall v | v in db'.videos ensures db'.videos[v].comments <= |Rows(db', v)| { RowsOfStore(db, c, v); }
    forall p | p in db'.comments ensures db'.comments[p].replies <= |Children(db', p)| { ChildrenOfStore(db, c, p); }
  }

  lemma CreateReplyKeeps(db: Db, parent: nat, video: Id, commenter: Id, answered: Id)
    requires Shape(db) && AtMost(db) && Fits(db, WantReply(parent, video, commenter, answered)) && parent in db.comments
    ensures CreateReply(db, parent, video, commenter, answered).Ok?
    ensures Shape(CreateReply(db, parent, video, commenter, answered).value)
            && AtMost(CreateReply(db, parent, video, commenter, answered).value)
  {
    var c := Comment(video, commenter, parent, answered, 0);
    var db' := CreateReply(db, parent, video, commenter, answered).value;
    StoreShape(db, c);
    assert SameRows(Store(db, c), db');
    CountersAside(Store(db, c), db');
    forall v | v in db'.videos ensures db'.videos[v].comments <= |Rows(db', v)| { RowsOfStore(db, c, v); }
    forall p | p in db'.comments ensures db'.comments[p].replies <= |Children(db', p)| { ChildrenOfStore(db, c, p); }
  }

  function Dropped(db: Db, gone: set<nat>): Db { db.(comments := db.comments - gone) }

  /** db' is db without the rows `gone`, but for counters. */
  ghost predicate Lost(db: Db, db': Db, gone: set<nat>) {
    SameRows(Dropped(db, gone), db') && db'.nextId == db.nextId && db'.videos.Keys == db.videos.Keys
      && db'.known == db.known
  }

  lemma RowsLost(db: Db, db': Db, gone: set<nat>, v: Id)
    requires Lost(db, db', gone)
    ensures Rows(db', v) == Rows(db, v) - gone
  {
  }

  lemma ChildrenLost(db: Db, db': Db, gone: set<nat>, p: nat)
    requires Lost(db, db', gone)
    ensures Children(db', p) == Children(db, p) - gone
  {
  }

  lemma ShapeLost(db: Db, db': Db, gone: set<nat>)
    requires Lost(db, db', gone) && Shape(db)
    ensures Shape(db')
  {
  }

  lemma DeleteReplyLoses(db: Db, comment: nat, parent: nat, video: Id)
    ensures Lost(db, DeleteReply(db, comment, parent, video), {comment})
  {
  }

  lemma DeleteReplyVideo(db: Db, comment: nat, parent: nat, video: Id, v: Id)
    requires Fits(db, WantDropReply(comment, parent, video)) && v in db.videos && db.videos[v].comments <= |Rows(db, v)|
    ensures var db' := DeleteReply(db, comment, parent, video);
            v in db'.videos && db'.videos[v].comments <= |Rows(db', v)|
  {
    DeleteReplyLoses(db, comment, parent, video);
    RowsLost(db, DeleteReply(db, comment, parent, video), {comment}, v);
    DropReplyRow(db, comment, parent, video, v);
  }

  lemma DeleteReplyComment(db: Db, comment: nat, parent: nat, video: Id, p: nat)
    requires Fits(db, WantDropReply(comment, parent, video)) && p != comment
    requires p in db.comments && db.comments[p].replies <= |Children(db, p)|
    ensures var db' := DeleteReply(db, comment, parent, video);
            p in db'.comments && db'.comments[p].replies <= |Children(db', p)|
  {
    DeleteReplyLoses(db, comment, parent, video);
    ChildrenLost(db, DeleteReply(db, comment, parent, video), {comment}, p);
    DropReplyChild(db, comment, parent, video, p);
  }

  lemma DeleteReplyKeeps(db: Db, comment: nat, parent: nat, video: Id)
    requires Shape(db) && AtMost(db) && Fits(db, WantDropReply(comment, parent, video))
    ensures Shape(DeleteReply(db, comment, parent, video)) && AtMost(DeleteReply(db, comment, parent, video))
  {
    var db' := DeleteReply(db, comment, parent, video);
    DeleteReplyLoses(db, comment, parent, video);
    ShapeLost(db, db', {comment});
    forall v | v in db'.videos
      ensures db'.videos[v].comments <= |Rows(db', v)| { DeleteReplyVideo(db, comment, parent, video, v); }
    forall p | p in db'.comments
      ensures db'.comments[p].replies <= |Children(db', p)| { DeleteReplyComment(db, comment, parent, video, p); }
  }

  lemma DropReplyRow(db: Db, comment: nat, parent: nat, video: Id, v: Id)
    requires Fits(db, WantDropReply(comment, parent, video))
    ensures |Rows(db, v) - {comment}| == |Rows(db, v)| - if comment in db.comments && v == video then 1 else 0
  {
    if comment in db.comments && v == video {
      assert comment in Rows(db, v);
    } else {
      assert Rows(db, v) - {comment} == Rows(db, v);
    }
  }

  lemma DropReplyChild(db: Db, comment: nat, parent: nat, video: Id, p: nat)
    requires Fits(db, WantDropReply(comment, parent, video))
    ensures |Children(db, p) - {comment}| == |Children(db, p)| - if comment in db.comments && p == parent then 1 else 0
  {
    if comment in db.comments && p == parent {
      assert comment in Children(db, p);
    } else {
      assert Children(db, p) - {comment} == Children(db, p);
    }
  }

  /** A top-level comment and its replies are rows of one video. */
  lemma FloorCounts(db: Db, comment: nat, video: Id, v: Id)
    requires Shape(db) && comment in db.comments && db.comments[comment].video == video
    ensures var floor := {comment} + Children(db, comment);
            |Rows(db, v) - floor| == |Rows(db, v)| - if v == video then |floor| else 0
  {
    var floor := {comment} + Children(db, comment);
    if v == video {
      assert floor <= Rows(db, v);
    } else {
      assert Rows(db, v) - floor == Rows(db, v);
    }
  }

  lemma FloorLeavesChildren(db: Db, comment: nat, p: nat)
    requires Shape(db) && comment in db.comments && db.comments[comment].parent == 0
    requires p in db.comments && p !in {comment} + Children(db, comment)
    ensures Children(db, p) - ({comment} + Children(db, comment)) == Children(db, p)
  {
  }

  lemma DeleteTopKeeps(db: Db, comment: nat, video: Id)
    requires Shape(db) && AtMost(db) && Fits(db, WantDropTop(comment, video)) && comment in db.comments
    ensures DeleteTop(db, comment, video).Ok?
    ensures Shape(DeleteTop(db, comment, video).value) && AtMost(DeleteTop(db, comment, video).value)
  {
    var floor := {comment} + Children(db, comment);
    var db' := DeleteTop(db, comment, video).value;
    ShapeLost(db, db', floor);
    forall v | v in db'.videos ensures db'.videos[v].comments <= |Rows(db', v)| {
      RowsLost(db, db', floor, v);
      FloorCounts(db, comment, video, v);
    }
    forall p | p in db'.comments ensures db'.comments[p].replies <= |Children(db', p)| {
      ChildrenLost(db, db', floor, p);
      FloorLeavesChildren(db, comment, p);
    }
  }

  lemma CommitKeeps(db: Db, want: Intent)
    requires Shape(db) && AtMost(db) && Fits(db, want)
    ensures Commit(db, want).Ok? ==> Shape(Commit(db, want).value) && AtMost(Commit(db, want).value)
  {
    match want
    case WantTop(video, commenter) => CreateTopKeeps(db, video, commenter);
    case WantReply(parent, video, commenter, answered) =>
      if parent in db.comments { CreateReplyKeeps(db, parent, video, commenter, answered); }
    case WantDropReply(comment, parent, video) => DeleteReplyKeeps(db, comment, parent, video);
    case WantDropTop(comment, video) => if comment in db.comments { DeleteTopKeeps(db, comment, video); }
  }

  /** Rows come and go and are counted, but a comment never changes its video or its parent. */
  ghost predicate Evolves(db: Db, db': Db) {
    && db.nextId <= db'.nextId && db.known <= db'.known
    && forall c :: c in db'.comments && c < db.nextId ==>
         c in db.comments && db.comments[c].video == db'.comments[c].video
           && db.comments[c].parent == db'.comments[c].parent
  }

  lemma CommitEvolves(db: Db, want: Intent)
    requires Shape(db) && Fits(db, want)
    ensures Commit(db, want).Ok? ==> Evolves(db, Commit(db, want).value)
  {
  }

  lemma FitsLasts(db: Db, db': Db, want: Intent)
    requires Fits(db, want) && Evolves(db, db')
    ensures Fits(db', want)
  {
  }

  lemma TransactKeeps(s: State, want: Intent)
    requires Inv(s) && want in s.pending
    ensures Inv(Apply(s, Transact(want)))
  {
    CommitKeeps(s.db, want);
    CommitEvolves(s.db, want);
    var s' := Apply(s, Transact(want));
    if Commit(s.db, want).Ok? {
      forall w | w in s'.pending ensures Fits(s'.db, w) {
        assert w in s.pending;
        FitsLasts(s.db, s'.db, w);
      }
    }
  }

  lemma OtherRowsKept(db: Db, video: Id, v: Id)
    requires v != video
    ensures Rows(db.(comments := map c | c in db.comments && db.comments[c].video != video :: db.comments[c]), v) == Rows(db, v)
  {
  }

  lemma SweepKeeps(s: State, video: Id)
    requires Inv(s) && Enabled(s, Sweep(video))
    ensures Inv(Apply(s, Sweep(video)))
  {
    var s' := Apply(s, Sweep(video));
    forall v | v in s'.db.videos ensures s'.db.videos[v].comments <= |Rows(s'.db, v)| { OtherRowsKept(s.db, video, v); }
    forall c | c in s'.db.comments ensures s'.db.comments[c].replies <= |Children(s'.db, c)| {
      assert Children(s'.db, c) == Children(s.db, c);
    }
  }

  lemma VideoStepKeeps(s: State, step: Step)
    requires Inv(s) && Enabled(s, step) && (step.AddVideo? || step.Show? || step.DropVideo?)
    ensures Inv(Apply(s, step))
  {
    var s' := Apply(s, step);
    assert s'.db.comments == s.db.comments;
    CountersAside(s.db, s'.db);
    forall w | w in s'.pending ensures Fits(s'.db, w) { FitsLasts(s.db, s'.db, w); }
  }

  lemma StepKeeps(s: State, step: Step)
    requires Inv(s) && Enabled(s, step)
    ensures Inv(Apply(s, step))
  {
    match step
    case Transact(want) => TransactKeeps(s, want);
    case Sweep(video) => SweepKeeps(s, video);
    case AddVideo(_) => VideoStepKeeps(s, step);
    case Show(_, _) => VideoStepKeeps(s, step);
    case DropVideo(_) => VideoStepKeeps(s, step);
    case Create(_, _, _, _) =>
    case Delete(_, _) =>
  }

  ghost predicate Run(s: State, steps: seq<Step>, end: State)
    decreases |steps|
  {
    if steps == [] then end == s
    else Enabled(s, steps[0]) && Run(Apply(s, steps[0]), steps[1..], end)
  }

  ghost predicate Reachable(s: State) { exists steps :: Run(START, steps, s) }

  lemma {:induction false} RunKeeps(s: State, steps: seq<Step>, end: State)
    requires Inv(s) && Run(s, steps, end)
    ensures Inv(end)
    decreases |steps|
  {
    if steps != [] {
      StepKeeps(s, steps[0]);
      RunKeeps(Apply(s, steps[0]), steps[1..], end);
    }
  }

  /** However reads and transactions interleave, with videos coming, going and being swept in between, no
      counter ever exceeds the rows it counts, and a reply and its parent belong to one video. */
  lemma CountersNeverExceedRows(s: State)
    requires Reachable(s)
    ensures forall v :: v in s.db.videos ==> 0 <= s.db.videos[v].comments <= |Rows(s.db, v)|
    ensures forall c :: c in s.db.comments ==> 0 <= s.db.comments[c].replies <= |Children(s.db, c)|
    ensures forall c :: c in s.db.comments && s.db.comments[c].parent in s.db.comments ==>
              s.db.comments[s.db.comments[c].parent].video == s.db.comments[c].video
  {
    var steps :| Run(START, steps, s);
    RunKeeps(START, steps, s);
  }

  // ------------------------------------------------------------------ one request at a time

  /** Create and Delete run from read to transaction with nothing in between. */
  function SerialApply(db: Db, step: Step): Db
    requires Enabled(State(db, multiset{}), step) && !step.Transact?
  {
    var s := Apply(State(db, multiset{}), step);
    match step
    case Create(video, parent, replyTo, commenter) =>
      (match ReadCreate(db, video, parent, replyTo, commenter)
       case Ok(want) => CommitOr(db, want)
       case Err(_) => db)
    case Delete(comment, user) =>
      (match ReadDelete(db, comment, user)
       case Ok(Some(want)) => CommitOr(db, want)
       case _ => db)
    case _ => s.db
  }

  function CommitOr(db: Db, want: Intent): Db {
    match Commit(db, want) case Ok(next) => next case Err(_) => db
  }

  ghost predicate SerialRun(db: Db, steps: seq<Step>, end: Db)
    decreases |steps|
  {
    if steps == [] then end == db
    else
      && !steps[0].Transact? && Enabled(State(db, multiset{}), steps[0])
      && SerialRun(SerialApply(db, steps[0]), steps[1..], end)
  }

  ghost predicate SerialReachable(db: Db) { exists steps :: SerialRun(START.db, steps, db) }

  ghost predicate Exact(db: Db) {
    && (forall v :: v in db.videos ==> db.videos[v].comments == |Rows(db, v)|)
    && (forall c :: c in db.comments ==> db.comments[c].replies == |Children(db, c)|)
  }

  /** Just read: the rows are as the request saw them. */
  ghost predicate Fresh(db: Db, want: Intent) {
    Fits(db, want) &&
    match want
    case WantTop(_, _) => true
    case WantReply(parent, _, _, _) => parent in db.comments
    case WantDropReply(comment, _, _) => comment in db.comments
    case WantDropTop(comment, _) => comment in db.comments
  }

  lemma CreateTopExact(db: Db, video: Id, commenter: Id)
    requires Shape(db) && Exact(db) && video in db.known
    ensures Exact(CreateTop(db, video, commenter))
  {
    var c := Comment(video, commenter, 0, 0, 0);
    var db' := CreateTop(db, video, commenter);
    CountersAside(Store(db, c), db');
    NoChildrenYet(db);
    forall v | v in db'.videos ensures db'.videos[v].comments == |Rows(db', v)| { RowsOfStore(db, c, v); }
    forall p | p in db'.comments ensures db'.comments[p].replies == |Children(db', p)| { ChildrenOfStore(db, c, p); }
  }

  lemma CreateReplyExact(db: Db, parent: nat, video: Id, commenter: Id, answered: Id)
    requires Shape(db) && Exact(db) && Fits(db, WantReply(parent, video, commenter, answered)) && parent in db.comments
    ensures Exact(CreateReply(db, parent, video, commenter, answered).value)
  {
    var c := Comment(video, commenter, parent, answered, 0);
    var db' := CreateReply(db, parent, video, commenter, answered).value;
    assert SameRows(Store(db, c), db');
    CountersAside(Store(db, c), db');
    NoChildrenYet(db);
    forall v | v in db'.videos ensures db'.videos[v].comments == |Rows(db', v)| { RowsOfStore(db, c, v); }
    forall p | p in db'.comments ensures db'.comments[p].replies == |Children(db', p)| { ChildrenOfStore(db, c, p); }
  }

  /** With exact counters GREATEST and "reply_count > 0" never hold a deletion back. */
  predicate NoClamp(db: Db, want: Intent) {
    match want
    case WantDropReply(_, parent, video) =>
      (video in db.videos ==> db.videos[video].comments >= 1)
        && (parent in db.comments ==> db.comments[parent].replies >= 1)
    case WantDropTop(comment, video) => video in db.videos ==>
      db.videos[video].comments >= |{comment} + Children(db, comment)|
    case _ => true
  }

  lemma ExactNeverClamps(db: Db, want: Intent)
    requires Shape(db) && Exact(db) && Fresh(db, want)
    ensures NoClamp(db, want)
  {
    match want
    case WantDropReply(comment, parent, video) =>
      assert comment in Rows(db, video) && comment in Children(db, parent);
    case WantDropTop(comment, video) => FloorCounts(db, comment, video, video);
    case _ =>
  }

  lemma DeleteReplyExact(db: Db, comment: nat, parent: nat, video: Id)
    requires Shape(db) && Exact(db) && Fresh(db, WantDropReply(comment, parent, video))
    ensures Exact(DeleteReply(db, comment, parent, video))
  {
    var db' := DeleteReply(db, comment, parent, video);
    ExactNeverClamps(db, WantDropReply(comment, parent, video));
    DeleteReplyLoses(db, comment, parent, video);
    forall v | v in db'.videos ensures db'.videos[v].comments == |Rows(db', v)| {
      RowsLost(db, db', {comment}, v);
      DropReplyRow(db, comment, parent, video, v);
    }
    forall p | p in db'.comments ensures db'.comments[p].replies == |Children(db', p)| {
      ChildrenLost(db, db', {comment}, p);
      DropReplyChild(db, comment, parent, video, p);
    }
  }

  lemma DeleteTopExact(db: Db, comment: nat, video: Id)
    requires Shape(db) && Exact(db) && Fresh(db, WantDropTop(comment, video))
    ensures Exact(DeleteTop(db, comment, video).value)
  {
    var floor := {comment} + Children(db, comment);
    var db' := DeleteTop(db, comment, video).value;
    ExactNeverClamps(db, WantDropTop(comment, video));
    forall v | v in db'.videos ensures db'.videos[v].comments == |Rows(db', v)| {
      RowsLost(db, db', floor, v);
      FloorCounts(db, comment, video, v);
    }
    forall p | p in db'.comments ensures db'.comments[p].replies == |Children(db', p)| {
      ChildrenLost(db, db', floor, p);
      FloorLeavesChildren(db, comment, p);
    }
  }

  lemma CommitExact(db: Db, want: Intent)
    requires Shape(db) && Exact(db) && Fresh(db, want)
    ensures Shape(CommitOr(db, want)) && Exact(CommitOr(db, want)) && NoClamp(db, want)
  {
    ExactNeverClamps(db, want);
    CommitKeeps(db, want);
    match want
    case WantTop(video, commenter) => CreateTopExact(db, video, commenter);
    case WantReply(parent, video, commenter, answered) => CreateReplyExact(db, parent, video, commenter, answered);
    case WantDropReply(comment, parent, video) => DeleteReplyExact(db, comment, parent, video);
    case WantDropTop(comment, video) => DeleteTopExact(db, comment, video);
  }

  lemma SweepExact(db: Db, video: Id)
    requires Shape(db) && Exact(db) && video !in db.videos && video in db.known
    ensures Exact(SerialApply(db, Sweep(video))) && Shape(SerialApply(db, Sweep(video)))
  {
    var db' := SerialApply(db, Sweep(video));
    forall v | v in db'.videos ensures db'.videos[v].comments == |Rows(db', v)| { OtherRowsKept(db, video, v); }
    forall c | c in db'.comments ensures db'.comments[c].replies == |Children(db', c)| {
      assert Children(db', c) == Children(db, c);
    }
  }

  lemma SerialStepExact(db: Db, step: Step)
    requires Shape(db) && Exact(db) && !step.Transact? && Enabled(State(db, multiset{}), step)
    ensures Shape(SerialApply(db, step)) && Exact(SerialApply(db, step))
  {
    match step
    case Create(video, parent, replyTo, commenter) =>
      if ReadCreate(db, video, parent, replyTo, commenter).Ok? { CommitExact(db, ReadCreate(db, video, parent, replyTo, commenter).value); }
    case Delete(comment, user) =>
      var read := ReadDelete(db, comment, user);
      if read.Ok? && read.value.Some? { CommitExact(db, read.value.value); }
    case Sweep(video) => SweepExact(db, video);
    case AddVideo(video) => NewVideoExact(db, video);
    case Show(_, _) => CountersAside(db, SerialApply(db, step));
    case DropVideo(_) => CountersAside(db, SerialApply(db, step));
    case Transact(_) =>
  }

  lemma NewVideoExact(db: Db, video: Id)
    requires Shape(db) && Exact(db) && video !in db.known
    ensures Shape(SerialApply(db, AddVideo(video))) && Exact(SerialApply(db, AddVideo(video)))
  {
    CountersAside(db, SerialApply(db, AddVideo(video)));
    assert Rows(db, video) == {};
  }

  lemma {:induction false} SerialRunExact(db: Db, steps: seq<Step>, end: Db)
    requires Shape(db) && Exact(db) && SerialRun(db, steps, end)
    ensures Shape(end) && Exact(end)
    decreases |steps|
  {
    if steps != [] {
      SerialStepExact(db, steps[0]);
      SerialRunExact(SerialApply(db, steps[0]), steps[1..], end);
    }
  }

  /** With requests handled one at a time, comment_count is the number of a video's rows, reply_count the
      number of a comment's children, and no deletion is ever held back by a clamp. */
  lemma SerialCountersAreExact(db: Db, comment: nat, user: Id)
    requires SerialReachable(db)
    ensures Exact(db)
    ensures match ReadDelete(db, comment, user) case Ok(Some(want)) => NoClamp(db, want) case _ => true
  {
    var steps :| SerialRun(START.db, steps, db);
    SerialRunExact(START.db, steps, db);
    var read := ReadDelete(db, comment, user);
    if read.Ok? && read.value.Some? { ExactNeverClamps(db, read.value.value); }
  }

  lemma {:induction false} RunJoin(s: State, a: seq<Step>, mid: State, b: seq<Step>, end: State)
    requires Run(s, a, mid) && Run(mid, b, end)
    ensures Run(s, a + b, end)
    decreases |a|
  {
    if a == [] {
      assert a + b == b;
    } else {
      RunJoin(Apply(s, a[0]), a[1..], mid, b, end);
      assert (a + b)[1..] == a[1..] + b;
    }
  }

  lemma RunOne(s: State, step: Step)
    requires Enabled(s, step)
    ensures Run(s, [step], Apply(s, step))
  {
    assert [step][1..] == [] && Run(Apply(s, step), [], Apply(s, step));
  }

  lemma RequestIsARun(s: State, step: Step, want: Intent) returns (steps: seq<Step>)
    requires s.pending == multiset{} && Enabled(s, step) && Apply(s, step) == s.(pending := multiset{want})
    ensures Run(s, steps, State(CommitOr(s.db, want), multiset{}))
  {
    RunOne(s, step);
    RunOne(Apply(s, step), Transact(want));
    RunJoin(s, [step], Apply(s, step), [Transact(want)], Apply(Apply(s, step), Transact(want)));
    steps := [step] + [Transact(want)];
  }

  lemma SerialStepIsARun(db: Db, step: Step) returns (steps: seq<Step>)
    requires !step.Transact? && Enabled(State(db, multiset{}), step)
    ensures Run(State(db, multiset{}), steps, State(SerialApply(db, step), multiset{}))
  {
    var s := State(db, multiset{});
    var after := Apply(s, step);
    if after.pending == multiset{} {
      RunOne(s, step);
      steps := [step];
    } else {
      var want :| after == s.(pending := multiset{want});
      steps := RequestIsARun(s, step, want);
    }
  }

  /** Requests one at a time are one of the interleavings: each reads and transacts before the next. */
  lemma {:induction false} SerialIsARun(db: Db, serial: seq<Step>, end: Db) returns (steps: seq<Step>)
    requires SerialRun(db, serial, end)
    ensures Run(State(db, multiset{}), steps, State(end, multiset{}))
    decreases |serial|
  {
    if serial == [] {
      steps := [];
    } else {
      var first := SerialStepIsARun(db, serial[0]);
      var mid := SerialApply(db, serial[0]);
      var rest := SerialIsARun(mid, serial[1..], end);
      RunJoin(State(db, multiset{}), first, State(mid, multiset{}), rest, State(end, multiset{}));
      steps := first + rest;
    }
  }

  // ------------------------------------------------------------------ what one request does

  function AtLeast0(n: int): nat { if n < 0 then 0 else n }

  /** The row is as it was, but for its counter. */
  predicate SameBut(a: Comment, b: Comment, shift: int) { b == a.(replies := AtLeast0(a.replies + shift)) }

  /** A comment is taken if its video is out, and, where it is a reply, if the comments it names are there and of that
      video. It then adds the one row, answering the commenter of the comment named, which is the parent unless another
      is, and counted once at the video and once at the parent. */
  lemma CreateAddsOneRow(db: Db, video: Id, parent: nat, replyTo: nat, commenter: Id)
    requires Shape(db)
    ensures var db', read := SerialApply(db, Create(video, parent, replyTo, commenter)), ReadCreate(db, video, parent, replyTo, commenter);
            && (read.Ok? <==>
                  && video in db.videos && db.videos[video].published
                  && (parent > 0 ==> parent in db.comments && db.comments[parent].video == video)
                  && (parent > 0 && replyTo > 0 ==> replyTo in db.comments && db.comments[replyTo].video == video))
            && (read.Err? ==> db' == db && read.error in {NotFound, BadRequest})
            && (read == Err(BadRequest) <==>
                  && video in db.videos && db.videos[video].published && parent in db.comments && parent > 0
                  && (db.comments[parent].video == video ==>
                        replyTo > 0 && replyTo in db.comments && db.comments[replyTo].video != video))
            && (read.Ok? ==>
                  && db'.comments.Keys == db.comments.Keys + {db.nextId} && db.nextId !in db.comments
                  && (parent == 0 ==> db'.comments[db.nextId] == Comment(video, commenter, 0, 0, 0))
                  && (parent > 0 ==>
                        var answered := db.comments[if replyTo > 0 then replyTo else parent].commenter;
                        db'.comments[db.nextId] == Comment(video, commenter, parent, answered, 0))
                  && (forall c :: c in db.comments ==> SameBut(db.comments[c], db'.comments[c], if c == parent then 1 else 0))
                  && db'.videos == db.videos[video := db.videos[video].(comments := db.videos[video].comments + 1)])
  {
  }

  /** A deletion is its commenter's alone, and takes the comment with its direct replies. The video's counter falls by
      the rows that go and the parent's by one, neither below 0. */
  lemma DeleteTakesTheThread(db: Db, comment: nat, user: Id)
    requires Shape(db)
    ensures var db', read := SerialApply(db, Delete(comment, user)), ReadDelete(db, comment, user);
            && (read == Err(Forbidden) <==> comment in db.comments && db.comments[comment].commenter != user)
            && (read.Err? ==> read.error == Forbidden)
            && (comment !in db.comments || read.Err? ==> db' == db)
            && (comment in db.comments && read.Ok? ==>
                  var c := db.comments[comment];
                  var gone := if c.parent > 0 then {comment} else {comment} + Children(db, comment);
                  && db'.comments.Keys == db.comments.Keys - gone
                  && (forall k :: k in db'.comments ==> SameBut(db.comments[k], db'.comments[k], if k == c.parent then -1 else 0))
                  && db'.videos.Keys == db.videos.Keys
                  && (forall v :: v in db.videos ==>
                        db'.videos[v] == db.videos[v].(comments := AtLeast0(db.videos[v].comments - if v == c.video then |gone| else 0))))
  {
  }

  // ------------------------------------------------------------------ orphans

  ghost predicate NoOrphans(db: Db) {
    forall c :: c in db.comments && db.comments[c].parent > 0 ==> db.comments[c].parent in db.comments
  }

  /** Two levels only: no reply to a reply. */
  ghost predicate Flat(db: Db) {
    forall c :: c in db.comments && db.comments[c].parent in db.comments ==>
      db.comments[db.comments[c].parent].parent == 0
  }

  /** What deleting the comment leaves. */
  function AfterDelete(db: Db, comment: nat): Db
    requires comment in db.comments
  {
    var c := db.comments[comment];
    CommitOr(db, if c.parent > 0 then WantDropReply(comment, c.parent, c.video) else WantDropTop(comment, c.video))
  }

  lemma DeleteOrphansNested(db: Db, c: nat)
    requires Shape(db) && NoOrphans(db) && c in db.comments && db.comments[c].parent > 0
    requires db.comments[db.comments[c].parent].parent > 0
    ensures !NoOrphans(AfterDelete(db, db.comments[c].parent))
  {
    var p := db.comments[c].parent;
    var db' := AfterDelete(db, p);
    assert c in db'.comments && db'.comments[c].parent == p && p !in db'.comments;
  }

  lemma FlatDeleteKeeps(db: Db, comment: nat)
    requires Shape(db) && NoOrphans(db) && Flat(db) && comment in db.comments
    ensures NoOrphans(AfterDelete(db, comment)) && Flat(AfterDelete(db, comment))
  {
    var db' := AfterDelete(db, comment);
    forall c | c in db'.comments && db'.comments[c].parent > 0
      ensures db'.comments[c].parent in db'.comments && db'.comments[db'.comments[c].parent].parent == 0
    {
      var p := db.comments[c].parent;
      assert c in db.comments && db'.comments[c].parent == p && p in db.comments && db.comments[p].parent == 0;
    }
  }

  /** Deletion is safe exactly in a two-level table: given no orphans, no deletion of any comment makes one
      if and only if no comment is a reply to a reply. */
  lemma DeletionIsSafeExactlyWhenFlat(db: Db)
    requires Shape(db) && NoOrphans(db)
    ensures (forall comment :: comment in db.comments ==> NoOrphans(AfterDelete(db, comment))) <==> Flat(db)
  {
    if Flat(db) {
      forall comment | comment in db.comments
        ensures NoOrphans(AfterDelete(db, comment)) { FlatDeleteKeeps(db, comment); }
    } else {
      var c :| c in db.comments && db.comments[c].parent in db.comments
        && db.comments[db.comments[c].parent].parent != 0;
      DeleteOrphansNested(db, c);
    }
  }

  /** Create keeps the table two-level exactly when the parent it names is top-level. */
  lemma ReplyKeepsFlatExactlyUnderTop(db: Db, parent: nat, replyTo: nat, video: Id, commenter: Id, answered: Id)
    requires Shape(db) && Flat(db) && ReadCreate(db, video, parent, replyTo, commenter) == Ok(WantReply(parent, video, commenter, answered))
    ensures Flat(CommitOr(db, WantReply(parent, video, commenter, answered))) <==> db.comments[parent].parent == 0
  {
    var db' := CommitOr(db, WantReply(parent, video, commenter, answered));
    assert db.nextId in db'.comments && db'.comments[db.nextId].parent == parent;
    assert parent in db'.comments && db'.comments[parent].parent == db.comments[parent].parent;
    if db.comments[parent].parent == 0 {
      forall c | c in db'.comments && db'.comments[c].parent in db'.comments
        ensures db'.comments[db'.comments[c].parent].parent == 0
      {
        if c != db.nextId {
          assert db'.comments[c].parent == db.comments[c].parent < db.nextId;
        }
      }
    }
  }

  /** Requests name only top-level comments as parents. */
  predicate NamesTop(s: State, step: Step) {
    step.Create? && step.parent in s.db.comments ==> s.db.comments[step.parent].parent == 0
  }

  ghost predicate TwoLevel(s: State) {
    && Inv(s) && Flat(s.db) && NoOrphans(s.db)
    && forall want :: want in s.pending && want.WantReply? && want.parent in s.db.comments ==>
       s.db.comments[want.parent].parent == 0
  }

  ghost predicate TopRun(s: State, steps: seq<Step>, end: State)
    decreases |steps|
  {
    if steps == [] then end == s
    else Enabled(s, steps[0]) && NamesTop(s, steps[0]) && TopRun(Apply(s, steps[0]), steps[1..], end)
  }

  lemma TransactKeepsLevels(s: State, want: Intent)
    requires TwoLevel(s) && want in s.pending
    ensures Flat(CommitOr(s.db, want)) && NoOrphans(CommitOr(s.db, want))
  {
    var db, db' := s.db, CommitOr(s.db, want);
    assert Fits(db, want);
    match want
    case WantTop(video, commenter) => TopKeepsLevels(db, video, commenter);
    case WantReply(parent, video, commenter, answered) =>
      if parent in db.comments { ReplyKeepsLevels(db, parent, video, commenter, answered); }
    case WantDropReply(comment, parent, video) =>
      if comment in db.comments {
        FlatDeleteKeeps(db, comment);
      } else {
        assert db.comments - {comment} == db.comments;
      }
    case WantDropTop(comment, video) => if comment in db.comments { FlatDeleteKeeps(db, comment); }
  }

  lemma TopKeepsLevels(db: Db, video: Id, commenter: Id)
    requires Shape(db) && Flat(db) && NoOrphans(db)
    ensures Flat(CreateTop(db, video, commenter)) && NoOrphans(CreateTop(db, video, commenter))
  {
    assert 0 !in db.comments && db.nextId !in db.comments;
  }

  lemma ReplyKeepsLevels(db: Db, parent: nat, video: Id, commenter: Id, answered: Id)
    requires Shape(db) && Flat(db) && NoOrphans(db) && parent in db.comments && db.comments[parent].parent == 0
    ensures var db' := CreateReply(db, parent, video, commenter, answered).value; Flat(db') && NoOrphans(db')
  {
    var db' := CreateReply(db, parent, video, commenter, answered).value;
    forall c | c in db'.comments && db'.comments[c].parent > 0
      ensures db'.comments[c].parent in db'.comments && db'.comments[db'.comments[c].parent].parent == 0
    {
      if c != db.nextId {
        assert db'.comments[c].parent == db.comments[c].parent < db.nextId;
      }
    }
  }

  lemma TopStepKeeps(s: State, step: Step)
    requires TwoLevel(s) && Enabled(s, step) && NamesTop(s, step)
    ensures TwoLevel(Apply(s, step))
  {
    StepKeeps(s, step);
    var s' := Apply(s, step);
    match step
    case Transact(want) =>
      TransactKeepsLevels(s, want);
      CommitEvolves(s.db, want);
      assert s'.db == CommitOr(s.db, want);
      forall w | w in s'.pending && w.WantReply? && w.parent in s'.db.comments
        ensures s'.db.comments[w.parent].parent == 0
      {
        assert Fits(s.db, w);
      }
    case _ =>
  }

  lemma {:induction false} TopRunKeeps(s: State, steps: seq<Step>, end: State)
    requires TwoLevel(s) && TopRun(s, steps, end)
    ensures TwoLevel(end)
    decreases |steps|
  {
    if steps != [] {
      TopStepKeeps(s, steps[0]);
      TopRunKeeps(Apply(s, steps[0]), steps[1..], end);
    }
  }

  /** While replies name only top-level comments, no interleaving of requests ever leaves an orphan. */
  lemma TopLevelRepliesLeaveNoOrphans(steps: seq<Step>, end: State)
    requires TopRun(START, steps, end)
    ensures NoOrphans(end.db)
  {
    TopRunKeeps(START, steps, end);
  }

  // ------------------------------------------------------------------ the repository and the logic

  class Repo {
    var comments: map<nat, Comment>
    var videos: map<Id, Video>
    var nextId: nat
    ghost var known: set<Id>

    ghost function View(): Db
      reads this
    {
      Db(comments, videos, nextId, known)
    }

    constructor ()
      ensures View() == START.db
    {
      comments, videos, nextId, known := map[], map[], 1, {};
    }

    method IncrVideoCommentCount(video: Id, delta: int)
      modifies this`videos
      ensures View() == Incr(old(View()), video, delta)
    {
      if video in videos {
        var count := videos[video].comments + delta;
        if count < 0 {
          count := 0;
        }
        videos := videos[video := videos[video].(comments := count)];
      }
    }

    method InsertTop(video: Id, commenter: Id)
      modifies this
      ensures View() == CreateTop(old(View()), video, commenter)
    {
      comments := comments[nextId := Comment(video, commenter, 0, 0, 0)];
      nextId := nextId + 1;
      IncrVideoCommentCount(video, 1);
    }

    method InsertReply(parent: nat, video: Id, commenter: Id, answered: Id) returns (found: bool)
      modifies this
      ensures found <==> CreateReply(old(View()), parent, video, commenter, answered).Ok?
      ensures View() == CommitOr(old(View()), WantReply(parent, video, commenter, answered))
    {
      if parent !in comments {
        return false;
      }
      comments := comments[nextId := Comment(video, commenter, parent, answered, 0)];
      nextId := nextId + 1;
      comments := comments[parent := comments[parent].(replies := comments[parent].replies + 1)];
      IncrVideoCommentCount(video, 1);
      return true;
    }

    method RemoveReply(comment: nat, parent: nat, video: Id)
      modifies this
      ensures View() == DeleteReply(old(View()), comment, parent, video)
    {
      comments := comments - {comment};
      if parent in comments && comments[parent].replies > 0 {
        comments := comments[parent := comments[parent].(replies := comments[parent].replies - 1)];
      }
      IncrVideoCommentCount(video, -1);
    }

    /** Returns what was removed, so that the caller can clear the likes. */
    method RemoveTopWithReplies(comment: nat, video: Id) returns (removed: set<nat>)
      modifies this
      ensures View() == CommitOr(old(View()), WantDropTop(comment, video))
      ensures removed == old(comments).Keys - comments.Keys
    {
      removed := {};
      if comment !in comments {
        return;
      }
      removed := {comment} + set c | c in comments && comments[c].parent == comment;
      comments := comments - removed;
      IncrVideoCommentCount(video, -|removed|);
    }

    /** The sweep after a deletion. Taking all of a video's rows at once, it leaves none of them, touches no
        other row, and orphans nothing. */
    method DeleteByVideo(video: Id)
      modifies this`comments
      ensures Rows(View(), video) == {} && forall v :: v != video ==> Rows(View(), v) == Rows(old(View()), v)
      ensures video in known && video !in videos ==> View() == Apply(State(old(View()), multiset{}), Sweep(video)).db
      ensures Shape(old(View())) && NoOrphans(old(View())) ==> NoOrphans(View())
    {
      comments := map c | c in comments && comments[c].video != video :: comments[c];
      forall v | v != video ensures Rows(View(), v) == Rows(old(View()), v) { OtherRowsKept(old(View()), video, v); }
    }

    method Create(video: Id, parent: nat, replyTo: nat, commenter: Id) returns (result: Result<()>)
      modifies this
      ensures View() == SerialApply(old(View()), Step.Create(video, parent, replyTo, commenter))
      ensures result.Ok? <==> ReadCreate(old(View()), video, parent, replyTo, commenter).Ok?
      ensures result.Err? ==> View() == old(View()) && ReadCreate(old(View()), video, parent, replyTo, commenter) == Err(result.error)
    {
      if video !in videos || !videos[video].published {
        return Err(NotFound);
      }
      if parent > 0 {
        if parent !in comments {
          return Err(NotFound);
        }
        if comments[parent].video != video {
          return Err(BadRequest);
        }
        var answered := comments[parent].commenter;
        if replyTo > 0 && replyTo != parent {
          if replyTo !in comments {
            return Err(NotFound);
          }
          if comments[replyTo].video != video {
            return Err(BadRequest);
          }
          answered := comments[replyTo].commenter;
        }
        var found := InsertReply(parent, video, commenter, answered);
      } else {
        InsertTop(video, commenter);
      }
      return Ok(());
    }

    /** Deleting what is not there succeeds. */
    method Delete(comment: nat, user: Id) returns (result: Result<()>)
      modifies this
      ensures View() == SerialApply(old(View()), Step.Delete(comment, user))
      ensures result.Ok? <==> ReadDelete(old(View()), comment, user).Ok?
      ensures result.Err? ==> View() == old(View()) && result.error == Forbidden
    {
      if comment !in comments {
        return Ok(());
      }
      var c := comments[comment];
      if c.commenter != user {
        return Err(Forbidden);
      }
      if c.parent > 0 {
        RemoveReply(comment, c.parent, c.video);
        return Ok(());
      }
      var removed := RemoveTopWithReplies(comment, c.video);
      return Ok(());
    }
  }
}
