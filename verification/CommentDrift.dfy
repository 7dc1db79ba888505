/** How far comment_count and reply_count fall behind the rows they count when reads and transactions
    interleave, to the unit: a deletion whose row is already gone still takes one off, and a counter that has
    reached 0 stays there. */
module CommentDrift {
  import opened Text
  import opened Comments

  /** A counter: the comment_count of a video or the reply_count of a comment. */
  datatype Counter = OfVideo(video: Id) | OfComment(comment: nat)

  predicate There(db: Db, k: Counter) {
    match k
    case OfVideo(video) => video in db.videos
    case OfComment(comment) => comment in db.comments
  }

  function Count(db: Db, k: Counter): nat
    requires There(db, k)
  {
    match k
    case OfVideo(video) => db.videos[video].comments
    case OfComment(comment) => db.comments[comment].replies
  }

  function Counted(db: Db, k: Counter): set<nat> {
    match k
    case OfVideo(video) => Rows(db, video)
    case OfComment(comment) => Children(db, comment)
  }

  /** Rows that the counter has lost sight of. */
  function Deficit(db: Db, k: Counter): int
    requires There(db, k)
  {
    |Counted(db, k)| - Count(db, k)
  }

  /** The transaction deletes a reply that k counts, or once counted. */
  predicate DropsFrom(want: Intent, k: Counter) {
    want.WantDropReply? && (k == OfVideo(want.video) || k == OfComment(want.parent))
  }

  /** 1 for a deletion in vain, its row gone, whose decrement takes effect all the same. */
  function Vain(db: Db, want: Intent, k: Counter): nat
    requires There(db, k)
  {
    if DropsFrom(want, k) && want.comment !in db.comments && Count(db, k) > 0 then 1 else 0
  }

  /** What a deletion that does remove rows would take off but GREATEST, or "reply_count > 0", holds back. */
  function Spared(db: Db, want: Intent, k: Counter): nat
    requires There(db, k)
  {
    if DropsFrom(want, k) && want.comment in db.comments && Count(db, k) == 0 then 1
    else if want.WantDropTop? && want.comment in db.comments && k == OfVideo(want.video) then
      var floor := |{want.comment} + Children(db, want.comment)|;
      if Count(db, k) < floor then floor - Count(db, k) else 0
    else 0
  }

  // ------------------------------------------------------------------ one transaction

  lemma ReplyMoves(db: Db, want: Intent, k: Counter)
    requires Shape(db) && Fits(db, want) && want.WantDropReply? && There(db, k) && There(CommitOr(db, want), k)
    ensures Deficit(CommitOr(db, want), k) == Deficit(db, k) + Vain(db, want, k) - Spared(db, want, k)
  {
    DeleteReplyLoses(db, want.comment, want.parent, want.video);
    match k
    case OfVideo(_) => ReplyMovesVideo(db, want, k);
    case OfComment(_) => ReplyMovesComment(db, want, k);
  }

  lemma ReplyMovesVideo(db: Db, want: Intent, k: Counter)
    requires Fits(db, want) && want.WantDropReply? && k.OfVideo? && There(db, k)
    requires Lost(db, CommitOr(db, want), {want.comment})
    ensures Deficit(CommitOr(db, want), k) == Deficit(db, k) + Vain(db, want, k) - Spared(db, want, k)
  {
    RowsLost(db, CommitOr(db, want), {want.comment}, k.video);
    DropReplyRow(db, want.comment, want.parent, want.video, k.video);
  }

  lemma ReplyMovesComment(db: Db, want: Intent, k: Counter)
    requires Fits(db, want) && want.WantDropReply? && k.OfComment? && There(db, k) && There(CommitOr(db, want), k)
    requires Lost(db, CommitOr(db, want), {want.comment})
    ensures Deficit(CommitOr(db, want), k) == Deficit(db, k) + Vain(db, want, k) - Spared(db, want, k)
  {
    ChildrenLost(db, CommitOr(db, want), {want.comment}, k.comment);
    DropReplyChild(db, want.comment, want.parent, want.video, k.comment);
  }

  lemma TopMoves(db: Db, want: Intent, k: Counter)
    requires Shape(db) && Fits(db, want) && want.WantDropTop? && There(db, k) && There(CommitOr(db, want), k)
    ensures Deficit(CommitOr(db, want), k) == Deficit(db, k) - Spared(db, want, k)
  {
    if want.comment in db.comments {
      var floor := {want.comment} + Children(db, want.comment);
      var db' := DeleteTop(db, want.comment, want.video).value;
      match k
      case OfVideo(v) =>
        RowsLost(db, db', floor, v);
        FloorCounts(db, want.comment, want.video, v);
      case OfComment(p) =>
        ChildrenLost(db, db', floor, p);
        FloorLeavesChildren(db, want.comment, p);
    }
  }

  lemma NewTopMoves(db: Db, video: Id, commenter: Id, k: Counter)
    requires Shape(db) && video in db.known && There(db, k)
    ensures Deficit(CreateTop(db, video, commenter), k) == Deficit(db, k)
  {
    var c := Comment(video, commenter, 0, 0, 0);
    CountersAside(Store(db, c), CreateTop(db, video, commenter));
    match k
    case OfVideo(v) => RowsOfStore(db, c, v);
    case OfComment(p) => ChildrenOfStore(db, c, p);
  }

  lemma NewReplyMoves(db: Db, parent: nat, video: Id, commenter: Id, answered: Id, k: Counter)
    requires Shape(db) && parent in db.comments && There(db, k)
    ensures Deficit(CreateReply(db, parent, video, commenter, answered).value, k) == Deficit(db, k)
  {
    var c := Comment(video, commenter, parent, answered, 0);
    var db' := CreateReply(db, parent, video, commenter, answered).value;
    assert SameRows(Store(db, c), db');
    CountersAside(Store(db, c), db');
    match k
    case OfVideo(v) => RowsOfStore(db, c, v);
    case OfComment(p) => ChildrenOfStore(db, c, p);
  }

  /** A transaction moves a counter against its rows only by deleting in vain and by being held back. */
  lemma TransactionMoves(db: Db, want: Intent, k: Counter)
    requires Shape(db) && Fits(db, want) && There(db, k) && There(CommitOr(db, want), k)
    ensures Deficit(CommitOr(db, want), k) == Deficit(db, k) + Vain(db, want, k) - Spared(db, want, k)
  {
    match want
    case WantTop(video, commenter) => NewTopMoves(db, video, commenter, k);
    case WantReply(parent, video, commenter, answered) =>
      if parent in db.comments { NewReplyMoves(db, parent, video, commenter, answered, k); }
    case WantDropReply(_, _, _) => ReplyMoves(db, want, k);
    case WantDropTop(_, _) => TopMoves(db, want, k);
  }

  /** The deletion's row is still there, or its counters are gone or at 0. */
  predicate Harmless(db: Db, want: Intent) {
    want.WantDropReply? && want.comment !in db.comments ==>
      && (want.video in db.videos ==> db.videos[want.video].comments == 0)
      && (want.parent in db.comments ==> db.comments[want.parent].replies == 0)
  }

  /** From exact counters, whatever was read and however long ago, a transaction leaves both counters exact if
      and only if it does not delete in vain from a counter above 0. */
  lemma ExactAfterwardsExactlyWhenHarmless(db: Db, want: Intent)
    requires Shape(db) && Exact(db) && Fits(db, want)
    ensures Exact(CommitOr(db, want)) <==> Harmless(db, want)
  {
    if Harmless(db, want) {
      HarmlessKeepsExact(db, want);
    } else if want.video in db.videos && db.videos[want.video].comments > 0 {
      var k := OfVideo(want.video);
      TransactionMoves(db, want, k);
      assert Deficit(CommitOr(db, want), k) == 1;
    } else {
      var k := OfComment(want.parent);
      TransactionMoves(db, want, k);
      assert Deficit(CommitOr(db, want), k) == 1;
    }
  }

  lemma HarmlessKeepsExact(db: Db, want: Intent)
    requires Shape(db) && Exact(db) && Fits(db, want) && Harmless(db, want)
    ensures Exact(CommitOr(db, want))
  {
    match want
    case WantTop(_, _) => CommitExact(db, want);
    case WantReply(parent, _, _, _) => if parent in db.comments { CommitExact(db, want); }
    case WantDropTop(comment, _) => if comment in db.comments { CommitExact(db, want); }
    case WantDropReply(comment, parent, video) =>
      if comment in db.comments {
        CommitExact(db, want);
      } else {
        assert db.comments - {comment} == db.comments;
        assert DeleteReply(db, comment, parent, video).comments == db.comments;
        CountersAside(db, DeleteReply(db, comment, parent, video));
      }
  }

  /** That happens: two deletions of one reply that both read it before either wrote leave the video's counter
      one short, and the parent's too, unless it reached 0 first. */
  lemma RacingDeletesUndercount(db: Db, comment: nat, k: Counter)
    requires Shape(db) && Exact(db) && comment in db.comments && db.comments[comment].parent > 0
    requires var want := WantDropReply(comment, db.comments[comment].parent, db.comments[comment].video);
             DropsFrom(want, k) && There(db, k) && Count(db, k) > 1
    ensures var want := WantDropReply(comment, db.comments[comment].parent, db.comments[comment].video);
            && ReadDelete(db, comment, db.comments[comment].commenter) == Ok(Some(want))
            && There(CommitOr(CommitOr(db, want), want), k)
            && Deficit(CommitOr(CommitOr(db, want), want), k) == 1
  {
    var want := WantDropReply(comment, db.comments[comment].parent, db.comments[comment].video);
    var once := CommitOr(db, want);
    assert Fits(db, want);
    CommitExact(db, want);
    CommitEvolves(db, want);
    FitsLasts(db, once, want);
    TransactionMoves(db, want, k);
    TransactionMoves(once, want, k);
  }

  // ------------------------------------------------------------------ whole runs

  function StepVain(s: State, step: Step, k: Counter): nat {
    if step.Transact? && There(s.db, k) then Vain(s.db, step.want, k) else 0
  }

  function StepSpared(s: State, step: Step, k: Counter): nat {
    if step.Transact? && There(s.db, k) then Spared(s.db, step.want, k) else 0
  }

  /** Added up over a run. */
  function VainIn(s: State, steps: seq<Step>, k: Counter): nat
    decreases |steps|
  {
    if steps == [] || !Enabled(s, steps[0]) then 0
    else StepVain(s, steps[0], k) + VainIn(Apply(s, steps[0]), steps[1..], k)
  }

  function SparedIn(s: State, steps: seq<Step>, k: Counter): nat
    decreases |steps|
  {
    if steps == [] || !Enabled(s, steps[0]) then 0
    else StepSpared(s, steps[0], k) + SparedIn(Apply(s, steps[0]), steps[1..], k)
  }

  /** The counter was there once, or can be no more. */
  predicate Gone(db: Db, k: Counter) {
    !There(db, k) &&
    match k
    case OfVideo(video) => video in db.known
    case OfComment(comment) => comment < db.nextId
  }

  lemma GoneStays(s: State, step: Step, k: Counter)
    requires Inv(s) && Enabled(s, step) && Gone(s.db, k)
    ensures Gone(Apply(s, step).db, k)
  {
    if step.Transact? {
      assert Fits(s.db, step.want);
      CommitEvolves(s.db, step.want);
    }
  }

  lemma {:induction false} GoneForGood(s: State, steps: seq<Step>, end: State, k: Counter)
    requires Inv(s) && Gone(s.db, k) && Run(s, steps, end)
    ensures !There(end.db, k)
    decreases |steps|
  {
    if steps != [] {
      StepKeeps(s, steps[0]);
      GoneStays(s, steps[0], k);
      GoneForGood(Apply(s, steps[0]), steps[1..], end, k);
    }
  }

  lemma StepMoves(s: State, step: Step, k: Counter)
    requires Inv(s) && Enabled(s, step) && There(s.db, k) && There(Apply(s, step).db, k)
    ensures Deficit(Apply(s, step).db, k) == Deficit(s.db, k) + StepVain(s, step, k) - StepSpared(s, step, k)
  {
    match step
    case Transact(want) =>
      assert Fits(s.db, want);
      TransactionMoves(s.db, want, k);
    case Sweep(video) => SweepMoves(s, video, k);
    case _ => CountersAside(s.db, Apply(s, step).db);
  }

  lemma SweepMoves(s: State, video: Id, k: Counter)
    requires Inv(s) && Enabled(s, Sweep(video)) && There(s.db, k) && There(Apply(s, Sweep(video)).db, k)
    ensures Counted(Apply(s, Sweep(video)).db, k) == Counted(s.db, k)
  {
    match k
    case OfVideo(v) => OtherRowsKept(s.db, video, v);
    case OfComment(_) =>
  }

  lemma StartsEven(s: State, step: Step, k: Counter)
    requires Inv(s) && Enabled(s, step) && !There(s.db, k) && There(Apply(s, step).db, k)
    ensures Deficit(Apply(s, step).db, k) == 0
  {
    match k
    case OfVideo(v) =>
      if step.AddVideo? { assert Rows(s.db, v) == {}; }
    case OfComment(p) =>
      assert step.Transact? && Fits(s.db, step.want);
      NewCommentEven(s.db, step.want, p);
  }

  lemma NewCommentEven(db: Db, want: Intent, p: nat)
    requires Shape(db) && Fits(db, want) && p !in db.comments && p in CommitOr(db, want).comments
    ensures Children(CommitOr(db, want), p) == {} && CommitOr(db, want).comments[p].replies == 0
  {
    NoChildrenYet(db);
    match want
    case WantTop(video, commenter) =>
      CountersAside(Store(db, Comment(video, commenter, 0, 0, 0)), CreateTop(db, video, commenter));
    case WantReply(parent, video, commenter, answered) =>
      assert SameRows(Store(db, Comment(video, commenter, parent, answered, 0)), CreateReply(db, parent, video, commenter, answered).value);
    case _ =>
  }

  lemma {:induction false} RunMoves(s: State, steps: seq<Step>, end: State, k: Counter)
    requires Inv(s) && Run(s, steps, end) && There(end.db, k)
    ensures Deficit(end.db, k) == (if There(s.db, k) then Deficit(s.db, k) else 0) + VainIn(s, steps, k) - SparedIn(s, steps, k)
    decreases |steps|
  {
    if steps != [] {
      var s' := Apply(s, steps[0]);
      StepKeeps(s, steps[0]);
      RunMoves(s', steps[1..], end, k);
      if There(s.db, k) && There(s'.db, k) {
        StepMoves(s, steps[0], k);
      } else if There(s.db, k) {
        LeavesForGood(s, steps[0], k);
        GoneForGood(s', steps[1..], end, k);
      } else if There(s'.db, k) {
        StartsEven(s, steps[0], k);
      }
    }
  }

  lemma LeavesForGood(s: State, step: Step, k: Counter)
    requires Inv(s) && Enabled(s, step) && There(s.db, k) && !There(Apply(s, step).db, k)
    ensures Gone(Apply(s, step).db, k)
  {
    if step.Transact? {
      assert Fits(s.db, step.want);
      CommitEvolves(s.db, step.want);
    }
  }

  /** Over every interleaving, each counter is behind its rows by exactly the deletions in vain that took
      effect, less what was held back at 0. */
  lemma CountersLagByVainDeletions(steps: seq<Step>, end: State, k: Counter)
    requires Run(START, steps, end) && There(end.db, k)
    ensures |Counted(end.db, k)| - Count(end.db, k) == VainIn(START, steps, k) - SparedIn(START, steps, k)
  {
    RunMoves(START, steps, end, k);
  }

  /** So an interleaving without deletions in vain ends with every counter exact, whatever else raced. */
  lemma NoVainDeletionsNoDrift(steps: seq<Step>, end: State)
    requires Run(START, steps, end) && forall k :: VainIn(START, steps, k) == 0
    ensures Exact(end.db)
  {
    RunKeeps(START, steps, end);
    forall k | There(end.db, k) ensures Deficit(end.db, k) == 0 {
      CountersLagByVainDeletions(steps, end, k);
      assert Deficit(end.db, k) >= 0;
    }
    forall v | v in end.db.videos
      ensures end.db.videos[v].comments == |Rows(end.db, v)| { assert There(end.db, OfVideo(v)); }
    forall c | c in end.db.comments
      ensures end.db.comments[c].replies == |Children(end.db, c)| { assert There(end.db, OfComment(c)); }
  }
}
