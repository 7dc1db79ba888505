/** When Cleanup may run. It deletes read threads older than a limit, looking at nothing else: neither at the
    Notifys that have counted themselves in such a thread and not yet bound their detail to it, nor, once it
    has picked its threads, at whether one of them has been reopened. */
module NotifyCleanup {
  import opened Ranking
  import opened Text
  import opened Notify

  ghost predicate CountsHold(db: Db) {
    forall k :: k in db.threads ==> |Bound(db, k)| <= db.threads[k].actorCount
  }

  /** At the end of every continuation. */
  ghost predicate CountsHoldFrom(s: State) {
    forall steps, end :: Run(s, steps, end) ==> CountsHold(end.db)
  }

  function Cleaned(s: State, ids: set<nat>): State { s.(db := DeleteThreads(s.db, ids)) }

  lemma InvHolds(s: State)
    requires Inv(s)
    ensures CountsHold(s.db)
  {
    forall k | k in s.db.threads ensures |Bound(s.db, k)| <= s.db.threads[k].actorCount {
      CountedKeysCard(s.db, k);
      BoundWithinCounted(s, k);
      SubsetCard(Bound(s.db, k), CountedKeys(s.db, k));
    }
  }

  lemma {:induction false} Above(ids: set<nat>) returns (n: nat)
    ensures forall id :: id in ids ==> id < n
  {
    if ids == {} {
      n := 0;
    } else {
      var id :| id in ids;
      var rest := Above(ids - {id});
      n := if id < rest then rest else id + 1;
      assert forall x :: x in ids ==> x == id || x in ids - {id};
    }
  }

  /** Another Notify into the window of task n, run to its end, and then the binding of task n. */
  function Rebinding(n: nat, other: nat, detail: DetailKey, at: nat): seq<Step> {
    [Begin(other, detail, at), Upsert(other), Bind(other), Bind(n)]
  }

  function AfterRebinding(s: State, n: nat, other: nat, detail: DetailKey, at: nat): State
    requires n in s.tasks && s.tasks[n].stage == Upserted && other !in s.tasks && detail !in s.db.details
  {
    Apply(Apply(Apply(Apply(s, Begin(other, detail, at)), Upsert(other)), Bind(other)), Bind(n))
  }

  lemma RebindingRuns(s: State, n: nat, other: nat, detail: DetailKey, at: nat)
    requires n in s.tasks && s.tasks[n].stage == Upserted && other !in s.tasks && detail !in s.db.details
    ensures Run(s, Rebinding(n, other, detail, at), AfterRebinding(s, n, other, detail, at))
  {
    var steps := Rebinding(n, other, detail, at);
    var s1 := Apply(s, steps[0]);
    var s2 := Apply(s1, steps[1]);
    var s3 := Apply(s2, steps[2]);
    var s4 := Apply(s3, steps[3]);
    assert Run(s4, [], s4);
    assert steps[3..] == [steps[3]] && steps[3..][1..] == [];
    assert Run(s3, steps[3..], s4);
    assert steps[2..][1..] == steps[3..];
    assert Run(s2, steps[2..], s4);
    assert steps[1..][1..] == steps[2..];
    assert Run(s1, steps[1..], s4);
  }

  /** With the thread of task n gone, they are two on a thread made anew that has counted one. */
  lemma RebindingOvercounts(s: State, n: nat, other: nat, detail: DetailKey)
    requires n in s.tasks && s.tasks[n].stage == Upserted && other !in s.tasks && detail !in s.db.details
    requires s.tasks[n].detail in s.db.details && detail.group == s.tasks[n].detail.group
    requires ThreadOf(s.tasks[n]) !in s.db.threads
    ensures !CountsHold(AfterRebinding(s, n, other, detail, s.tasks[n].at).db)
  {
    var t := s.tasks[n];
    var k := ThreadOf(t);
    var end := AfterRebinding(s, n, other, detail, t.at).db;
    assert k in end.threads && end.threads[k].actorCount == 1;
    assert {detail, t.detail} <= Bound(end, k);
    SubsetCard({detail, t.detail}, Bound(end, k));
  }

  /** From any reachable state, deleting a set of threads leaves every continuation with counts that cover the
      bound details if and only if none of the threads lies between some Notify's count and its binding.
      `newcomer` is someone not yet notified of what the Notifys under way are about. */
  lemma CleanupIsSafeExactlyOutsideNotify(s: State, ids: set<nat>, newcomer: Id)
    requires Reachable(s) && 0 !in ids
    requires forall n :: n in s.tasks ==> DetailKey(s.tasks[n].detail.group, newcomer) !in s.db.details
    ensures CountsHoldFrom(Cleaned(s, ids)) <==> Enabled(s, Clean(ids))
  {
    if Enabled(s, Clean(ids)) {
      SafeOutsideNotify(s, ids);
    } else {
      UnsafeInsideNotify(s, ids, newcomer);
    }
  }

  lemma UnsafeInsideNotify(s: State, ids: set<nat>, newcomer: Id)
    requires Reachable(s) && 0 !in ids && !Enabled(s, Clean(ids))
    requires forall n :: n in s.tasks ==> DetailKey(s.tasks[n].detail.group, newcomer) !in s.db.details
    ensures !CountsHoldFrom(Cleaned(s, ids))
  {
    ReachableInv(s);
    var steps, end := CleanupInsideNotifyOvercounts(s, ids, newcomer);
    assert Run(Cleaned(s, ids), steps, end);
  }

  lemma SafeOutsideNotify(s: State, ids: set<nat>)
    requires Reachable(s) && Enabled(s, Clean(ids))
    ensures CountsHoldFrom(Cleaned(s, ids))
  {
    ReachableInv(s);
    StepKeepsInv(s, Clean(ids));
    forall steps, end | Run(Cleaned(s, ids), steps, end) ensures CountsHold(end.db) {
      RunKeepsInv(Cleaned(s, ids), steps, end);
      InvHolds(end);
    }
  }

  lemma CleanupInsideNotifyOvercounts(s: State, ids: set<nat>, newcomer: Id) returns (steps: seq<Step>, end: State)
    requires Inv(s) && 0 !in ids && !Enabled(s, Clean(ids))
    requires forall n :: n in s.tasks ==> DetailKey(s.tasks[n].detail.group, newcomer) !in s.db.details
    ensures Run(Cleaned(s, ids), steps, end) && !CountsHold(end.db)
  {
    var n :| n in s.tasks && s.tasks[n].stage == Upserted && ThreadOf(s.tasks[n]) in s.db.threads
             && s.db.threads[ThreadOf(s.tasks[n])].id in ids;
    var other := Above(s.tasks.Keys);
    var detail := DetailKey(s.tasks[n].detail.group, newcomer);
    var s' := Cleaned(s, ids);
    assert s.tasks[n].detail in s'.db.details && detail !in s'.db.details;
    RebindingRuns(s', n, other, detail, s.tasks[n].at);
    RebindingOvercounts(s', n, other, detail);
    steps := Rebinding(n, other, detail, s.tasks[n].at);
    end := AfterRebinding(s', n, other, detail, s.tasks[n].at);
  }

  /** A Notify of something long past, counted but not yet bound, whose thread its receiver has read. */
  function ReadWhileNotifying(group: Group, actor: Id, at: nat): State {
    var d := DetailKey(group, actor);
    Apply(Apply(Apply(START, Begin(1, d, at)), Upsert(1)), Read(group.user, {}))
  }

  /** Cleanup does come inside: the thread of such a Notify is stale for every limit later than the event, so
      that is what Cleanup deletes. */
  lemma CleanupComesInside(group: Group, actor: Id, at: nat, before: int)
    requires at < before
    ensures var s := ReadWhileNotifying(group, actor, at);
            && Reachable(s) && 0 !in Stale(s.db, before)
            && Stale(s.db, before) == {s.db.threads[ThreadOf(s.tasks[1])].id}
            && !Enabled(s, Clean(Stale(s.db, before)))
  {
    var d := DetailKey(group, actor);
    var steps := [Begin(1, d, at), Upsert(1), Read(group.user, {})];
    var s1 := Apply(START, steps[0]);
    var s2 := Apply(s1, steps[1]);
    var s3 := Apply(s2, steps[2]);
    assert Run(s3, [], s3);
    assert steps[2..][1..] == [];
    assert Run(s2, steps[2..], s3);
    assert steps[1..][1..] == steps[2..];
    assert Run(s1, steps[1..], s3);
    assert Run(START, steps, s3);
    var k := ThreadKey(group, Window(at));
    assert s3.db.threads.Keys == {k} && s3.db.threads[k].isRead && s3.db.threads[k].lastAt == at;
  }

  // ------------------------------------------------------------------ between picking and deleting

  /** Everything Cleanup deletes is stale at that moment. */
  ghost predicate DeletesOnlyStale(db: Db, ids: set<nat>, before: int) {
    forall k :: k in db.threads && db.threads[k].id in ids ==> db.threads[k].id in Stale(db, before)
  }

  /** An interaction between Cleanup's two statements: Cleanup still deletes only stale threads if and only if
      the interaction's thread is not one it has picked. If it is, it is deleted unread. */
  lemma DeletesOnlyStaleExactlyUnlessReopened(db: Db, key: ThreadKey, actor: Id, at: nat, before: int)
    requires IdsFresh(db)
    ensures var ids := Stale(db, before);
            DeletesOnlyStale(UpsertThread(db, key, actor, at), ids, before) <==>
              !(key in db.threads && db.threads[key].id in ids)
  {
    var ids, db' := Stale(db, before), UpsertThread(db, key, actor, at);
    if key in db.threads && db.threads[key].id in ids {
      assert db'.threads[key].id in ids && !db'.threads[key].isRead;
      UnreadIsNotStale(db, key, actor, at, before);
    } else {
      forall k | k in db'.threads && db'.threads[k].id in ids ensures db'.threads[k].id in Stale(db', before) {
        var m :| m in db.threads && db.threads[m].isRead && db.threads[m].lastAt < before
          && db.threads[m].id == db'.threads[k].id;
        assert m in db'.threads && db'.threads[m] == db.threads[m];
      }
    }
  }

  lemma UnreadIsNotStale(db: Db, key: ThreadKey, actor: Id, at: nat, before: int)
    requires IdsFresh(db) && key in db.threads
    ensures db.threads[key].id !in Stale(UpsertThread(db, key, actor, at), before)
  {
    var db' := UpsertThread(db, key, actor, at);
    UpsertKeepsIds(db, key, actor, at);
    assert db'.threads[key].id == db.threads[key].id && !db'.threads[key].isRead;
  }
}
