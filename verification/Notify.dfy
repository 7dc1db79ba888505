/** Notifications: a detail row per interaction behind a unique key, a thread row per 8-hour window with a
    count and the recent actors, and the binding of details to threads. Notify takes three statements that are
    not one transaction and may stop after any of them. */
module Notify {
  import opened Ranking
  import opened Text
  import opened ActorList

  const WINDOW_SECONDS := 8 * 60 * 60

  datatype Kind = LikeVideo | LikeComment | Comment | Reply | Follow

  /** Who is told about what. */
  datatype Group = Group(user: Id, kind: Kind, target: Id)

  /** uk_message_user_actor and uk_thread_user_target. */
  datatype DetailKey = DetailKey(group: Group, actor: Id)
  datatype ThreadKey = ThreadKey(group: Group, bucket: nat)

  /** thread is 0 until the detail is bound. */
  datatype Detail = Detail(id: nat, thread: nat)

  /** `history` lists the actors of the upserts behind the row, oldest first; the program does not store it. */
  datatype Thread = Thread(id: nat, actorCount: nat, actorIds: string, isRead: bool, lastAt: nat, history: seq<Id>)

  datatype Db = Db(details: map<DetailKey, Detail>, threads: map<ThreadKey, Thread>, nextId: nat)

  /** The 8-hour window of a moment in seconds. */
  function Window(at: nat): nat { at / WINDOW_SECONDS }

  // ------------------------------------------------------------------ the statements

  /** INSERT ... ON CONFLICT DO NOTHING */
  function InsertDetail(db: Db, key: DetailKey): (Db, bool) {
    if key in db.details then (db, false)
    else (db.(details := db.details[key := Detail(db.nextId, 0)], nextId := db.nextId + 1), true)
  }

  function UpsertThread(db: Db, key: ThreadKey, actor: Id, at: nat): Db {
    if key in db.threads then
      var t := db.threads[key];
      var next := Thread(t.id, t.actorCount + 1, UpdateActorIds(t.actorIds, Format(actor)), false, at, t.history + [actor]);
      db.(threads := db.threads[key := next])
    else
      db.(threads := db.threads[key := Thread(db.nextId, 1, Format(actor), false, at, [actor])], nextId := db.nextId + 1)
  }

  /** Fails, thread_id being NOT NULL, when the thread is gone. */
  function BindThread(db: Db, detail: DetailKey, key: ThreadKey): (Db, bool) {
    if key in db.threads && detail in db.details
    then (db.(details := db.details[detail := db.details[detail].(thread := db.threads[key].id)]), true)
    else (db, false)
  }

  /** All unread threads of the user, or those listed. */
  function MarkRead(db: Db, user: Id, ids: set<nat>): Db {
    db.(threads := map k | k in db.threads ::
          if k.group.user == user && (ids == {} || db.threads[k].id in ids) then db.threads[k].(isRead := true)
          else db.threads[k])
  }

  /** One Cleanup transaction: the listed threads and the details bound to them. */
  function DeleteThreads(db: Db, ids: set<nat>): Db {
    db.(details := map k | k in db.details && db.details[k].thread !in ids :: db.details[k],
        threads := map k | k in db.threads && db.threads[k].id !in ids :: db.threads[k])
  }

  // ------------------------------------------------------------------ runs

  datatype Stage = Inserted | Upserted

  /** A Notify that has inserted its detail and not finished. */
  datatype Task = Task(detail: DetailKey, at: nat, stage: Stage)

  /** `interrupted` records that some Notify stopped midway; a redelivery then finds its detail and does no more. */
  datatype State = State(db: Db, tasks: map<nat, Task>, interrupted: bool)

  datatype Step =
    | Begin(task: nat, detail: DetailKey, at: nat)
    | Upsert(task: nat)
    | Bind(task: nat)
    | Stop(task: nat)
    | Read(user: Id, ids: set<nat>)
    | Clean(ids: set<nat>)

  function ThreadOf(t: Task): ThreadKey { ThreadKey(t.detail.group, Window(t.at)) }

  /** Cleanup does not delete a thread between the upsert and the binding of a Notify. */
  predicate Enabled(s: State, step: Step) {
    match step
    case Begin(task, _, _) => task !in s.tasks
    case Upsert(task) => task in s.tasks && s.tasks[task].stage == Inserted
    case Bind(task) => task in s.tasks && s.tasks[task].stage == Upserted
    case Stop(task) => task in s.tasks
    case Read(_, _) => true
    case Clean(ids) =>
      && 0 !in ids
      && forall n :: n in s.tasks && s.tasks[n].stage == Upserted && ThreadOf(s.tasks[n]) in s.db.threads ==>
           s.db.threads[ThreadOf(s.tasks[n])].id !in ids
  }

  function Apply(s: State, step: Step): State
    requires Enabled(s, step)
  {
    match step
    case Begin(task, detail, at) =>
      var (db, inserted) := InsertDetail(s.db, detail);
      if inserted then s.(db := db, tasks := s.tasks[task := Task(detail, at, Inserted)]) else s
    case Upsert(task) =>
      var t := s.tasks[task];
      s.(db := UpsertThread(s.db, ThreadOf(t), t.detail.actor, t.at), tasks := s.tasks[task := t.(stage := Upserted)])
    case Bind(task) =>
      var (db, bound) := BindThread(s.db, s.tasks[task].detail, ThreadOf(s.tasks[task]));
      s.(db := db, tasks := s.tasks - {task}, interrupted := s.interrupted || !bound)
    case Stop(task) => s.(tasks := s.tasks - {task}, interrupted := true)
    case Read(user, ids) => s.(db := MarkRead(s.db, user, ids))
    case Clean(ids) => s.(db := DeleteThreads(s.db, ids))
  }

  const START := State(Db(map[], map[], 1), map[], false)

  ghost predicate Run(s: State, steps: seq<Step>, end: State)
    decreases |steps|
  {
    if steps == [] then end == s
    else Enabled(s, steps[0]) && Run(Apply(s, steps[0]), steps[1..], end)
  }

  ghost predicate Reachable(s: State) {
    exists steps :: Run(START, steps, s)
  }

  // ------------------------------------------------------------------ the invariant

  ghost predicate Distinct(actors: seq<Id>) {
    forall i, j :: 0 <= i < j < |actors| ==> actors[i] != actors[j]
  }

  ghost predicate IdsFresh(db: Db) {
    && db.nextId > 0
    && (forall k :: k in db.details ==> db.details[k].thread < db.nextId)
    && (forall k :: k in db.threads ==> 0 < db.threads[k].id < db.nextId)
    && (forall k, m :: k in db.threads && m in db.threads && db.threads[k].id == db.threads[m].id ==> k == m)
  }

  /** A thread row is the record of its history. */
  ghost predicate ThreadsRecord(db: Db) {
    forall k :: k in db.threads ==>
      var t := db.threads[k];
      t.actorCount == |t.history| && t.actorIds == ActorIds(t.history) && Distinct(t.history)
        && Window(t.lastAt) == k.bucket
  }

  /** An actor counted in a thread has a detail, bound to that thread or to none. */
  ghost predicate CountedHaveDetails(db: Db) {
    forall k, a :: k in db.threads && a in db.threads[k].history ==>
      DetailKey(k.group, a) in db.details && db.details[DetailKey(k.group, a)].thread in {0, db.threads[k].id}
  }

  /** A bound detail is counted in the thread it is bound to. */
  ghost predicate BoundAreCounted(db: Db) {
    forall k, d :: k in db.threads && d in db.details && db.details[d].thread == db.threads[k].id ==>
      d.group == k.group && d.actor in db.threads[k].history
  }

  /** Nobody is counted in two windows of one group. */
  ghost predicate CountedOnce(db: Db) {
    forall k, m, a ::
      (k in db.threads && m in db.threads && k.group == m.group && a in db.threads[k].history && a in db.threads[m].history) ==>
        k == m
  }

  ghost predicate TasksApart(s: State) {
    && (forall n, m :: n in s.tasks && m in s.tasks && s.tasks[n].detail == s.tasks[m].detail ==> n == m)
    && (forall n :: n in s.tasks ==> s.tasks[n].detail in s.db.details && s.db.details[s.tasks[n].detail].thread == 0)
  }

  ghost predicate Counted(db: Db, d: DetailKey, k: ThreadKey) {
    k in db.threads && k.group == d.group && d.actor in db.threads[k].history
  }

  ghost predicate TasksStaged(s: State) {
    && (forall n, k :: n in s.tasks && s.tasks[n].stage == Inserted ==> !Counted(s.db, s.tasks[n].detail, k))
    && (forall n :: n in s.tasks && s.tasks[n].stage == Upserted ==> Counted(s.db, s.tasks[n].detail, ThreadOf(s.tasks[n])))
  }

  ghost predicate TasksFit(s: State) { TasksApart(s) && TasksStaged(s) }

  ghost predicate InTask(s: State, d: DetailKey) { exists n :: n in s.tasks && s.tasks[n].detail == d }

  ghost predicate InThread(s: State, d: DetailKey)
    requires d in s.db.details
  {
    exists k :: k in s.db.threads && k.group == d.group && d.actor in s.db.threads[k].history
      && s.db.details[d].thread == s.db.threads[k].id
  }

  /** As long as no Notify stopped midway, every detail is on its way or counted and bound. */
  ghost predicate Settled(s: State) {
    !s.interrupted ==> forall d {:trigger d in s.db.details} :: d in s.db.details ==> InTask(s, d) || InThread(s, d)
  }

  ghost predicate Inv(s: State) {
    IdsFresh(s.db) && ThreadsRecord(s.db) && CountedHaveDetails(s.db) && BoundAreCounted(s.db) && CountedOnce(s.db)
    && TasksFit(s) && Settled(s)
  }

  lemma BeginKeepsInv(s: State, step: Step)
    requires Inv(s) && Enabled(s, step) && step.Begin?
    ensures Inv(Apply(s, step))
  {
    if step.detail !in s.db.details {
      BeginKeepsDb(s, step);
      BeginKeepsTasks(s, step);
      BeginSettles(s, step);
    }
  }

  lemma BeginKeepsDb(s: State, step: Step)
    requires Inv(s) && Enabled(s, step) && step.Begin? && step.detail !in s.db.details
    ensures var db := Apply(s, step).db;
            IdsFresh(db) && ThreadsRecord(db) && CountedHaveDetails(db) && BoundAreCounted(db) && CountedOnce(db)
  {
    InsertKeepsIds(s.db, step.detail);
    InsertKeepsBindings(s.db, step.detail);
  }

  lemma InsertKeepsIds(db: Db, key: DetailKey)
    requires IdsFresh(db) && ThreadsRecord(db) && CountedOnce(db)
    ensures var after := InsertDetail(db, key).0; IdsFresh(after) && ThreadsRecord(after) && CountedOnce(after)
  {
  }

  lemma InsertKeepsBindings(db: Db, key: DetailKey)
    requires IdsFresh(db) && CountedHaveDetails(db) && BoundAreCounted(db)
    ensures var after := InsertDetail(db, key).0; CountedHaveDetails(after) && BoundAreCounted(after)
  {
  }

  lemma BeginKeepsTasks(s: State, step: Step)
    requires TasksFit(s) && CountedHaveDetails(s.db) && Enabled(s, step) && step.Begin? && step.detail !in s.db.details
    ensures TasksFit(Apply(s, step))
  {
    var s' := Apply(s, step);
    assert s'.db.threads == s.db.threads;
    forall k ensures !Counted(s'.db, step.detail, k) {
      assert Counted(s.db, step.detail, k) ==> step.detail == DetailKey(k.group, step.detail.actor);
    }
    forall n, k | n in s'.tasks && s'.tasks[n].stage == Inserted ensures !Counted(s'.db, s'.tasks[n].detail, k) {
      assert n != step.task ==> !Counted(s.db, s.tasks[n].detail, k);
    }
    forall n | n in s'.tasks && s'.tasks[n].stage == Upserted
      ensures Counted(s'.db, s'.tasks[n].detail, ThreadOf(s'.tasks[n]))
    {
      assert Counted(s.db, s.tasks[n].detail, ThreadOf(s.tasks[n]));
    }
  }

  lemma BeginSettles(s: State, step: Step)
    requires Inv(s) && Enabled(s, step) && step.Begin? && step.detail !in s.db.details
    ensures Settled(Apply(s, step))
  {
    var s' := Apply(s, step);
    if !s'.interrupted {
      forall d {:trigger d in s'.db.details} | d in s'.db.details ensures InTask(s', d) || InThread(s', d) {
        if d == step.detail {
          assert s'.tasks[step.task].detail == d;
        } else if InTask(s, d) {
          var n :| n in s.tasks && s.tasks[n].detail == d;
          assert n in s'.tasks && s'.tasks[n].detail == d;
        }
      }
    }
  }

  lemma UpsertKeepsDb(s: State, step: Step)
    requires Inv(s) && Enabled(s, step) && step.Upsert?
    ensures var db := Apply(s, step).db;
            IdsFresh(db) && ThreadsRecord(db) && CountedHaveDetails(db) && BoundAreCounted(db) && CountedOnce(db)
  {
    var t := s.tasks[step.task];
    forall k | k in s.db.threads && k.group == t.detail.group ensures t.detail.actor !in s.db.threads[k].history {
      assert !Counted(s.db, t.detail, k);
    }
    UpsertRecords(s.db, ThreadOf(t), t.detail.actor, t.at);
    UpsertCounts(s.db, ThreadOf(t), t.detail.actor, t.at);
  }

  lemma UpsertRecords(db: Db, key: ThreadKey, actor: Id, at: nat)
    requires IdsFresh(db) && ThreadsRecord(db) && key.bucket == Window(at)
    requires forall k :: k in db.threads && k.group == key.group ==> actor !in db.threads[k].history
    ensures IdsFresh(UpsertThread(db, key, actor, at)) && ThreadsRecord(UpsertThread(db, key, actor, at))
  {
    UpsertKeepsIds(db, key, actor, at);
    if key in db.threads { OneMoreActor(db.threads[key].history, actor); }
  }

  lemma OneMoreActor(history: seq<Id>, actor: Id)
    ensures ActorIds(history + [actor]) == UpdateActorIds(ActorIds(history), Format(actor))
    ensures Distinct(history) && actor !in history ==> Distinct(history + [actor])
  {
    assert (history + [actor])[..|history|] == history;
    if history == [] {
      assert history + [actor] == [actor];
      UpdateEmpty(actor);
    }
  }

  lemma UpsertKeepsIds(db: Db, key: ThreadKey, actor: Id, at: nat)
    requires IdsFresh(db)
    ensures IdsFresh(UpsertThread(db, key, actor, at))
  {
  }

  lemma UpdateEmpty(actor: Id)
    ensures UpdateActorIds("", Format(actor)) == Format(actor)
  {
    NoComma(actor);
    IndexSkips(Format(actor), "", ACTORS_KEPT);
    assert Format(actor) + "" == Format(actor);
  }

  lemma UpsertCounts(db: Db, key: ThreadKey, actor: Id, at: nat)
    requires IdsFresh(db) && CountedHaveDetails(db) && BoundAreCounted(db) && CountedOnce(db)
    requires DetailKey(key.group, actor) in db.details && db.details[DetailKey(key.group, actor)].thread == 0
    requires forall k :: k in db.threads && k.group == key.group ==> actor !in db.threads[k].history
    ensures var db' := UpsertThread(db, key, actor, at);
            CountedHaveDetails(db') && BoundAreCounted(db') && CountedOnce(db')
  {
    UpsertCountsOnce(db, key, actor, at);
  }

  lemma UpsertCountsOnce(db: Db, key: ThreadKey, actor: Id, at: nat)
    requires CountedOnce(db)
    requires forall k :: k in db.threads && k.group == key.group ==> actor !in db.threads[k].history
    ensures CountedOnce(UpsertThread(db, key, actor, at))
  {
  }

  lemma UpsertCountsMore(db: Db, key: ThreadKey, actor: Id, at: nat, d: DetailKey, k: ThreadKey)
    ensures Counted(UpsertThread(db, key, actor, at), d, k) <==>
            Counted(db, d, k) || (k == key && d == DetailKey(key.group, actor))
  {
  }

  lemma UpsertKeepsTasks(s: State, step: Step)
    requires TasksFit(s) && Enabled(s, step) && step.Upsert?
    ensures TasksFit(Apply(s, step))
  {
    var s' := Apply(s, step);
    var t := s.tasks[step.task];
    assert s'.db.details == s.db.details;
    forall n, k | n in s'.tasks && s'.tasks[n].stage == Inserted ensures !Counted(s'.db, s'.tasks[n].detail, k) {
      UpsertCountsMore(s.db, ThreadOf(t), t.detail.actor, t.at, s.tasks[n].detail, k);
      assert !Counted(s.db, s.tasks[n].detail, k);
    }
    forall n | n in s'.tasks && s'.tasks[n].stage == Upserted
      ensures Counted(s'.db, s'.tasks[n].detail, ThreadOf(s'.tasks[n]))
    {
      UpsertCountsMore(s.db, ThreadOf(t), t.detail.actor, t.at, s.tasks[n].detail, ThreadOf(s.tasks[n]));
      assert n != step.task ==> Counted(s.db, s.tasks[n].detail, ThreadOf(s.tasks[n]));
    }
  }

  lemma UpsertSettles(s: State, step: Step)
    requires Settled(s) && Enabled(s, step) && step.Upsert?
    ensures Settled(Apply(s, step))
  {
    var s' := Apply(s, step);
    if !s'.interrupted {
      forall d {:trigger d in s'.db.details} | d in s'.db.details ensures InTask(s', d) || InThread(s', d) {
        assert d in s.db.details;
        if InTask(s, d) {
          var n :| n in s.tasks && s.tasks[n].detail == d;
          assert n in s'.tasks && s'.tasks[n].detail == d;
        } else {
          var k :| k in s.db.threads && k.group == d.group && d.actor in s.db.threads[k].history
            && s.db.details[d].thread == s.db.threads[k].id;
          assert k in s'.db.threads && d.actor in s'.db.threads[k].history && s'.db.threads[k].id == s.db.threads[k].id;
        }
      }
    }
  }

  lemma BindKeepsInv(s: State, step: Step)
    requires Inv(s) && Enabled(s, step) && step.Bind?
    ensures Inv(Apply(s, step))
  {
    BindKeepsDb(s, step);
    BindSettles(s, step);
  }

  lemma BindKeepsDb(s: State, step: Step)
    requires Inv(s) && Enabled(s, step) && step.Bind?
    ensures var s' := Apply(s, step);
            && IdsFresh(s'.db) && ThreadsRecord(s'.db) && CountedHaveDetails(s'.db) && BoundAreCounted(s'.db)
            && CountedOnce(s'.db) && TasksFit(s')
  {
    var t := s.tasks[step.task];
    assert Counted(s.db, t.detail, ThreadOf(t));
    BindKeepsCounts(s.db, t.detail, ThreadOf(t));
    BindKeepsTasks(s, step);
  }

  lemma BindKeepsCounts(db: Db, d: DetailKey, k: ThreadKey)
    requires IdsFresh(db) && CountedHaveDetails(db) && BoundAreCounted(db) && CountedOnce(db) && Counted(db, d, k)
    requires d in db.details && db.details[d].thread == 0
    ensures var db' := BindThread(db, d, k).0;
            IdsFresh(db') && CountedHaveDetails(db') && BoundAreCounted(db')
  {
    var db' := BindThread(db, d, k).0;
    forall m, a | m in db'.threads && a in db'.threads[m].history
      ensures DetailKey(m.group, a) in db'.details && db'.details[DetailKey(m.group, a)].thread in {0, db'.threads[m].id}
    {
      if DetailKey(m.group, a) == d {
        assert m == k;
      }
    }
  }

  lemma BindKeepsTasks(s: State, step: Step)
    requires TasksFit(s) && Enabled(s, step) && step.Bind?
    ensures TasksFit(Apply(s, step))
  {
    var s' := Apply(s, step);
    assert s'.db.threads == s.db.threads;
    forall n, k | n in s'.tasks && s'.tasks[n].stage == Inserted ensures !Counted(s'.db, s'.tasks[n].detail, k) {
      assert !Counted(s.db, s.tasks[n].detail, k);
    }
    forall n | n in s'.tasks && s'.tasks[n].stage == Upserted
      ensures Counted(s'.db, s'.tasks[n].detail, ThreadOf(s'.tasks[n]))
    {
      assert Counted(s.db, s.tasks[n].detail, ThreadOf(s.tasks[n]));
    }
  }

  lemma BindSettles(s: State, step: Step)
    requires Inv(s) && Enabled(s, step) && step.Bind?
    ensures Settled(Apply(s, step))
  {
    var s' := Apply(s, step);
    var t := s.tasks[step.task];
    assert s'.db.threads == s.db.threads;
    if !s'.interrupted {
      forall d {:trigger d in s'.db.details} | d in s'.db.details ensures InTask(s', d) || InThread(s', d) {
        assert d in s.db.details;
        if d == t.detail {
          assert ThreadOf(t) in s'.db.threads && d.actor in s'.db.threads[ThreadOf(t)].history;
        } else if InTask(s, d) {
          var n :| n in s.tasks && s.tasks[n].detail == d;
          assert n in s'.tasks && s'.tasks[n].detail == d;
        } else {
          var k :| k in s.db.threads && k.group == d.group && d.actor in s.db.threads[k].history
            && s.db.details[d].thread == s.db.threads[k].id;
          assert k in s'.db.threads;
        }
      }
    }
  }

  lemma ReadKeepsInv(s: State, step: Step)
    requires Inv(s) && Enabled(s, step) && step.Read?
    ensures Inv(Apply(s, step))
  {
    var s' := Apply(s, step);
    assert s'.db.threads.Keys == s.db.threads.Keys;
    assert forall k :: k in s.db.threads ==> s'.db.threads[k] == s.db.threads[k].(isRead := s'.db.threads[k].isRead);
    ReadKeepsRecords(s, step);
    ReadKeepsBindings(s, step);
    ReadKeepsTasks(s, step);
    ReadSettles(s, step);
  }

  lemma ReadKeepsBindings(s: State, step: Step)
    requires CountedHaveDetails(s.db) && BoundAreCounted(s.db) && CountedOnce(s.db) && Enabled(s, step) && step.Read?
    ensures var db := Apply(s, step).db; CountedHaveDetails(db) && BoundAreCounted(db) && CountedOnce(db)
  {
  }

  lemma ReadKeepsRecords(s: State, step: Step)
    requires IdsFresh(s.db) && ThreadsRecord(s.db) && Enabled(s, step) && step.Read?
    ensures IdsFresh(Apply(s, step).db) && ThreadsRecord(Apply(s, step).db)
  {
  }

  lemma ReadKeepsTasks(s: State, step: Step)
    requires TasksFit(s) && Enabled(s, step) && step.Read?
    ensures TasksFit(Apply(s, step))
  {
    var s' := Apply(s, step);
    forall d, k ensures Counted(s'.db, d, k) <==> Counted(s.db, d, k) {}
  }

  lemma ReadSettles(s: State, step: Step)
    requires Settled(s) && Enabled(s, step) && step.Read?
    ensures Settled(Apply(s, step))
  {
    var s' := Apply(s, step);
    if !s'.interrupted {
      forall d {:trigger d in s'.db.details} | d in s'.db.details ensures InTask(s', d) || InThread(s', d) {
        assert d in s.db.details;
        if !InTask(s, d) {
          var k :| k in s.db.threads && k.group == d.group && d.actor in s.db.threads[k].history
            && s.db.details[d].thread == s.db.threads[k].id;
          assert k in s'.db.threads && s'.db.threads[k].id == s.db.threads[k].id;
        } else {
          var n :| n in s.tasks && s.tasks[n].detail == d;
          assert n in s'.tasks;
        }
      }
    }
  }

  lemma CleanKeepsDb(s: State, step: Step)
    requires Inv(s) && Enabled(s, step) && step.Clean?
    ensures var s' := Apply(s, step);
            && IdsFresh(s'.db) && ThreadsRecord(s'.db) && CountedHaveDetails(s'.db) && BoundAreCounted(s'.db)
            && CountedOnce(s'.db) && TasksFit(s')
  {
    CleanKeepsTasks(s, step);
  }

  lemma CleanKeepsTasks(s: State, step: Step)
    requires TasksFit(s) && Enabled(s, step) && step.Clean?
    ensures TasksFit(Apply(s, step))
  {
    var s' := Apply(s, step);
    forall n, k | n in s'.tasks && s'.tasks[n].stage == Inserted ensures !Counted(s'.db, s'.tasks[n].detail, k) {
      assert !Counted(s.db, s.tasks[n].detail, k);
    }
    forall n | n in s'.tasks && s'.tasks[n].stage == Upserted
      ensures Counted(s'.db, s'.tasks[n].detail, ThreadOf(s'.tasks[n]))
    {
      assert Counted(s.db, s.tasks[n].detail, ThreadOf(s.tasks[n]));
    }
  }

  lemma CleanSettles(s: State, step: Step)
    requires Inv(s) && Enabled(s, step) && step.Clean?
    ensures Settled(Apply(s, step))
  {
    var s' := Apply(s, step);
    if !s'.interrupted {
      forall d {:trigger d in s'.db.details} | d in s'.db.details ensures InTask(s', d) || InThread(s', d) {
        assert d in s.db.details;
        if InTask(s, d) {
          var n :| n in s.tasks && s.tasks[n].detail == d;
          assert n in s'.tasks;
        } else {
          var k :| k in s.db.threads && k.group == d.group && d.actor in s.db.threads[k].history
            && s.db.details[d].thread == s.db.threads[k].id;
          assert k in s'.db.threads;
        }
      }
    }
  }

  lemma StopKeepsInv(s: State, step: Step)
    requires Inv(s) && Enabled(s, step) && step.Stop?
    ensures Inv(Apply(s, step))
  {
  }

  lemma StepKeepsInv(s: State, step: Step)
    requires Inv(s) && Enabled(s, step)
    ensures Inv(Apply(s, step))
  {
    match step
    case Begin(_, _, _) => BeginKeepsInv(s, step);
    case Upsert(_) =>
      UpsertKeepsDb(s, step);
      UpsertKeepsTasks(s, step);
      UpsertSettles(s, step);
    case Bind(_) => BindKeepsInv(s, step);
    case Stop(_) => StopKeepsInv(s, step);
    case Read(_, _) => ReadKeepsInv(s, step);
    case Clean(_) =>
      CleanKeepsDb(s, step);
      CleanSettles(s, step);
  }

  lemma {:induction false} RunKeepsInv(s: State, steps: seq<Step>, end: State)
    requires Inv(s) && Run(s, steps, end)
    ensures Inv(end)
    decreases |steps|
  {
    if steps != [] {
      StepKeepsInv(s, steps[0]);
      RunKeepsInv(Apply(s, steps[0]), steps[1..], end);
    }
  }

  lemma ReachableInv(s: State)
    requires Reachable(s)
    ensures Inv(s)
  {
    var steps :| Run(START, steps, s);
    RunKeepsInv(START, steps, s);
  }

  // ------------------------------------------------------------------ the counts are sandwiched

  /** The details bound to a thread. */
  function Bound(db: Db, k: ThreadKey): set<DetailKey>
    requires k in db.threads
  {
    set d | d in db.details && db.details[d].thread == db.threads[k].id
  }

  function KeysOf(group: Group, actors: set<Id>): set<DetailKey> {
    set a | a in actors :: DetailKey(group, a)
  }

  lemma {:induction false} KeysOfCard(group: Group, actors: set<Id>)
    ensures |KeysOf(group, actors)| == |actors|
  {
    if actors != {} {
      var a :| a in actors;
      KeysOfCard(group, actors - {a});
      assert KeysOf(group, actors) == KeysOf(group, actors - {a}) + {DetailKey(group, a)};
    }
  }

  lemma {:induction false} DistinctElems(actors: seq<Id>)
    requires Distinct(actors)
    ensures |Elems(actors)| == |actors|
  {
    if actors != [] {
      var n := |actors| - 1;
      DistinctElems(actors[..n]);
      assert actors == actors[..n] + [actors[n]];
      assert Elems(actors) == Elems(actors[..n]) + {actors[n]};
    }
  }

  /** The details of those counted in a thread. */
  function CountedKeys(db: Db, k: ThreadKey): set<DetailKey>
    requires k in db.threads
  {
    KeysOf(k.group, Elems(db.threads[k].history))
  }

  lemma CountedKeysCard(db: Db, k: ThreadKey)
    requires k in db.threads && ThreadsRecord(db)
    ensures |CountedKeys(db, k)| == db.threads[k].actorCount
  {
    DistinctElems(db.threads[k].history);
    KeysOfCard(k.group, Elems(db.threads[k].history));
  }

  lemma BoundWithinCounted(s: State, k: ThreadKey)
    requires Inv(s) && k in s.db.threads
    ensures Bound(s.db, k) <= CountedKeys(s.db, k)
  {
    forall d | d in Bound(s.db, k) ensures d in CountedKeys(s.db, k) {
      assert d.group == k.group && d.actor in s.db.threads[k].history;
      assert d == DetailKey(k.group, d.actor);
    }
  }

  lemma CountedAreBound(s: State, k: ThreadKey)
    requires Inv(s) && k in s.db.threads && !s.interrupted
    requires forall n :: n in s.tasks ==> !Counted(s.db, s.tasks[n].detail, k)
    ensures CountedKeys(s.db, k) <= Bound(s.db, k)
  {
    forall d | d in CountedKeys(s.db, k) ensures d in Bound(s.db, k) {
      assert Counted(s.db, d, k) && d in s.db.details;
      assert !InTask(s, d);
      var m :| m in s.db.threads && m.group == d.group && d.actor in s.db.threads[m].history
        && s.db.details[d].thread == s.db.threads[m].id;
      assert m == k;
    }
  }

  /** In every reachable state the details bound to a thread are at most its actor_count; they are equal when
      no Notify ever stopped midway and none that is counted in the thread is still running. */
  lemma BoundAtMostCount(s: State, k: ThreadKey)
    requires Reachable(s) && k in s.db.threads
    ensures |Bound(s.db, k)| <= s.db.threads[k].actorCount
    ensures !s.interrupted && (forall n :: n in s.tasks ==> !Counted(s.db, s.tasks[n].detail, k)) ==>
              |Bound(s.db, k)| == s.db.threads[k].actorCount
  {
    ReachableInv(s);
    CountedKeysCard(s.db, k);
    BoundWithinCounted(s, k);
    SubsetCard(Bound(s.db, k), CountedKeys(s.db, k));
    if !s.interrupted && forall n :: n in s.tasks ==> !Counted(s.db, s.tasks[n].detail, k) {
      CountedAreBound(s, k);
      assert Bound(s.db, k) == CountedKeys(s.db, k);
    }
  }

  function DetailsOf(db: Db, group: Group): set<DetailKey> {
    set d | d in db.details && d.group == group
  }

  function ThreadsOf(db: Db, group: Group): set<ThreadKey> {
    set k | k in db.threads && k.group == group
  }

  /** actor_count summed over these threads. */
  ghost function SumCounts(db: Db, keys: set<ThreadKey>): nat
    requires keys <= db.threads.Keys
  {
    if keys == {} then 0 else db.threads[Pick(keys)].actorCount + SumCounts(db, keys - {Pick(keys)})
  }

  ghost predicate CountedIn(db: Db, keys: set<ThreadKey>, d: DetailKey) { exists k :: k in keys && Counted(db, d, k) }

  lemma {:induction false} SumIsCard(db: Db, group: Group, keys: set<ThreadKey>) returns (all: set<DetailKey>)
    requires keys <= ThreadsOf(db, group) && ThreadsRecord(db) && CountedOnce(db)
    ensures keys <= db.threads.Keys && SumCounts(db, keys) == |all|
    ensures forall d :: d in all <==> CountedIn(db, keys, d)
    decreases keys
  {
    assert forall k :: k in keys ==> k in ThreadsOf(db, group);
    all := {};
    if keys != {} {
      var k := Pick(keys);
      var rest := SumIsCard(db, group, keys - {k});
      CountedKeysCard(db, k);
      all := rest + CountedKeys(db, k);
      forall d ensures d in CountedKeys(db, k) <==> Counted(db, d, k) {
        assert Counted(db, d, k) ==> d == DetailKey(k.group, d.actor);
      }
      forall d | d in rest ensures d !in CountedKeys(db, k) {
        var m :| m in keys - {k} && Counted(db, d, m);
        assert Counted(db, d, k) ==> m == k;
      }
      assert |all| == |rest| + |CountedKeys(db, k)|;
      forall d ensures d in all <==> CountedIn(db, keys, d) {
        assert Counted(db, d, k) ==> CountedIn(db, keys, d);
        assert CountedIn(db, keys - {k}, d) ==> CountedIn(db, keys, d);
        if CountedIn(db, keys, d) {
          var m :| m in keys && Counted(db, d, m);
          assert m != k ==> m in keys - {k};
        }
      }
    }
  }

  /** In every reachable state the actor_counts of all windows of one group add up to at most its details,
      which are its distinct actors; they are equal when no Notify ever stopped midway and none of the group
      is between its first two statements. */
  lemma CountsAtMostDetails(s: State, group: Group)
    requires Reachable(s)
    ensures SumCounts(s.db, ThreadsOf(s.db, group)) <= |DetailsOf(s.db, group)|
    ensures !s.interrupted && (forall n :: n in s.tasks ==> s.tasks[n].stage != Inserted || s.tasks[n].detail.group != group) ==>
              SumCounts(s.db, ThreadsOf(s.db, group)) == |DetailsOf(s.db, group)|
  {
    ReachableInv(s);
    var keys := ThreadsOf(s.db, group);
    var all := SumIsCard(s.db, group, keys);
    CountedWithinDetails(s, group, all);
    SubsetCard(all, DetailsOf(s.db, group));
    if !s.interrupted && forall n :: n in s.tasks ==> s.tasks[n].stage != Inserted || s.tasks[n].detail.group != group {
      DetailsAreCounted(s, group, all);
      assert all == DetailsOf(s.db, group);
    }
  }

  lemma CountedWithinDetails(s: State, group: Group, all: set<DetailKey>)
    requires Inv(s) && forall d :: d in all <==> CountedIn(s.db, ThreadsOf(s.db, group), d)
    ensures all <= DetailsOf(s.db, group)
  {
    forall d | d in all ensures d in DetailsOf(s.db, group) {
      var k :| k in ThreadsOf(s.db, group) && Counted(s.db, d, k);
      assert d == DetailKey(k.group, d.actor);
    }
  }

  lemma DetailsAreCounted(s: State, group: Group, all: set<DetailKey>)
    requires Inv(s) && !s.interrupted && forall d :: d in all <==> CountedIn(s.db, ThreadsOf(s.db, group), d)
    requires forall n :: n in s.tasks ==> s.tasks[n].stage != Inserted || s.tasks[n].detail.group != group
    ensures DetailsOf(s.db, group) <= all
  {
    forall d | d in DetailsOf(s.db, group) ensures d in all {
      if InTask(s, d) {
        var n :| n in s.tasks && s.tasks[n].detail == d;
        assert Counted(s.db, d, ThreadOf(s.tasks[n])) && ThreadOf(s.tasks[n]) in ThreadsOf(s.db, group);
      } else {
        var k :| k in s.db.threads && k.group == d.group && d.actor in s.db.threads[k].history
          && s.db.details[d].thread == s.db.threads[k].id;
        assert Counted(s.db, d, k) && k in ThreadsOf(s.db, group);
      }
    }
  }

  /** In every reachable state a thread's column reads back as its latest at most three actors, newest first
      and pairwise different, fits its width, and its last interaction lies in its window. */
  lemma ThreadShowsLatestActors(s: State, k: ThreadKey)
    requires Reachable(s) && k in s.db.threads
    ensures var t := s.db.threads[k];
            && (if t.actorIds == "" then [] else ParseParts(Split(t.actorIds, ','))) == LatestFirst(t.history, ACTORS_KEPT)
            && Distinct(LatestFirst(t.history, ACTORS_KEPT))
            && |t.actorIds| <= 62
            && Window(t.lastAt) == k.bucket
  {
    ReachableInv(s);
    var t := s.db.threads[k];
    assert t.actorIds == ActorIds(t.history) && Distinct(t.history) && Window(t.lastAt) == k.bucket;
    ColumnReadsBackLatest(t.history);
    LatestAreDistinct(t.history, ACTORS_KEPT);
  }

  lemma LatestAreDistinct(history: seq<Id>, count: nat)
    requires Distinct(history)
    ensures Distinct(LatestFirst(history, count))
  {
    var shown := LatestFirst(history, count);
    forall i, j | 0 <= i < j < |shown| ensures shown[i] != shown[j] {
      assert shown[i] == history[|history| - 1 - i] && shown[j] == history[|history| - 1 - j];
    }
  }

  // ------------------------------------------------------------------ the repository

  function NotifyOnce(db: Db, detail: DetailKey, at: nat): (Db, bool) {
    var (db1, inserted) := InsertDetail(db, detail);
    if !inserted then (db, false)
    else
      var key := ThreadKey(detail.group, Window(at));
      (BindThread(UpsertThread(db1, key, detail.actor, at), detail, key).0, true)
  }

  /** An uninterrupted Notify is three steps of a run. */
  lemma NotifyIsThreeSteps(s: State, task: nat, detail: DetailKey, at: nat)
    requires task !in s.tasks && detail !in s.db.details
    ensures var s1 := Apply(s, Begin(task, detail, at));
            Enabled(s1, Upsert(task)) && Enabled(Apply(s1, Upsert(task)), Bind(task))
            && Apply(Apply(s1, Upsert(task)), Bind(task)) == s.(db := NotifyOnce(s.db, detail, at).0)
  {
    var s1 := Apply(s, Begin(task, detail, at));
    var s2 := Apply(s1, Upsert(task));
    assert s2.tasks - {task} == s.tasks;
  }

  /** Read threads without an interaction since `before`, by ID. */
  function Stale(db: Db, before: int): set<nat> {
    set k | k in db.threads && db.threads[k].isRead && db.threads[k].lastAt < before :: db.threads[k].id
  }

  /** Detailed, unbound, in no thread's history and in no Notify under way. */
  ghost predicate Lost(s: State, d: DetailKey) {
    && d in s.db.details && s.db.details[d].thread == 0
    && (forall n :: n in s.tasks ==> s.tasks[n].detail != d) && (forall k :: !Counted(s.db, d, k))
  }

  lemma LostStaysLost(s: State, step: Step, d: DetailKey)
    requires Lost(s, d) && Enabled(s, step)
    ensures Lost(Apply(s, step), d)
  {
    var s' := Apply(s, step);
    forall k ensures !Counted(s'.db, d, k) { assert !Counted(s.db, d, k); }
  }

  lemma {:induction false} LostForGood(s: State, steps: seq<Step>, end: State, d: DetailKey)
    requires Lost(s, d) && Run(s, steps, end)
    ensures Lost(end, d)
    decreases |steps|
  {
    if steps != [] {
      LostStaysLost(s, steps[0], d);
      LostForGood(Apply(s, steps[0]), steps[1..], end, d);
    }
  }

  /** A Notify that stops between its first statement and its second is lost: whatever runs afterwards, redeliveries of
      the same interaction included, it is never counted in a thread nor bound to one. */
  lemma StoppedBeforeTheThreadIsLost(s: State, n: nat, steps: seq<Step>, end: State, k: ThreadKey)
    requires Reachable(s) && n in s.tasks && s.tasks[n].stage == Inserted
    requires Run(Apply(s, Stop(n)), steps, end)
    ensures var d := s.tasks[n].detail;
            d in end.db.details && end.db.details[d].thread == 0 && !Counted(end.db, d, k)
  {
    ReachableInv(s);
    assert Lost(Apply(s, Stop(n)), s.tasks[n].detail);
    LostForGood(Apply(s, Stop(n)), steps, end, s.tasks[n].detail);
  }

  /** One Notify of something new, uninterrupted: the thread of its 8-hour window, new or not, is unread, dated by it and
      one actor longer, its detail is bound to that thread, and nothing else changes. Of something old it does nothing. */
  lemma NotifyTells(db: Db, detail: DetailKey, at: nat)
    requires IdsFresh(db)
    ensures detail in db.details ==> NotifyOnce(db, detail, at) == (db, false)
    ensures detail !in db.details ==>
              var (after, inserted) := NotifyOnce(db, detail, at);
              var k := ThreadKey(detail.group, at / (8 * 60 * 60));
              && inserted && k in after.threads && after.details.Keys == db.details.Keys + {detail}
              && after.threads.Keys == db.threads.Keys + {k}
              && after.details[detail].thread == after.threads[k].id
              && !after.threads[k].isRead && after.threads[k].lastAt == at
              && after.threads[k].history == (if k in db.threads then db.threads[k].history else []) + [detail.actor]
              && after.threads[k].actorCount == (if k in db.threads then db.threads[k].actorCount else 0) + 1
              && (forall m :: m in db.threads && m != k ==> after.threads[m] == db.threads[m])
              && (forall d :: d in db.details ==> after.details[d] == db.details[d])
              && (if k in db.threads then after.threads[k].id == db.threads[k].id
                  else forall m :: m in db.threads ==> after.threads[k].id != db.threads[m].id)
  {
  }

  /** Reading marks the reader's own threads, all of them or those listed, and changes nothing else of them. */
  lemma ReadMarksOnlyTheReaders(db: Db, user: Id, ids: set<nat>, k: ThreadKey)
    requires k in db.threads
    ensures var after := MarkRead(db, user, ids);
            && after.details == db.details && after.threads.Keys == db.threads.Keys
            && after.threads[k] == db.threads[k].(isRead := after.threads[k].isRead)
            && (after.threads[k].isRead <==>
                  db.threads[k].isRead || (k.group.user == user && (ids == {} || db.threads[k].id in ids)))
  {
  }

  /** In every reachable state a cleanup deletes a thread exactly when it is read and was last added to before the limit,
      and a detail exactly when it is bound to such a thread; the rest is as it was. */
  lemma CleanupDeletesExactlyTheOldAndRead(s: State, before: int)
    requires Reachable(s)
    ensures var db := DeleteThreads(s.db, Stale(s.db, before));
            && (forall k :: k in s.db.threads ==>
                  (k in db.threads <==> !(s.db.threads[k].isRead && s.db.threads[k].lastAt < before)))
            && (forall d :: d in s.db.details ==>
                  (d in db.details <==>
                     !exists k :: k in s.db.threads && s.db.threads[k].id == s.db.details[d].thread
                                  && s.db.threads[k].isRead && s.db.threads[k].lastAt < before))
            && (forall k :: k in db.threads ==> k in s.db.threads && db.threads[k] == s.db.threads[k])
            && (forall d :: d in db.details ==> d in s.db.details && db.details[d] == s.db.details[d])
  {
    ReachableInv(s);
    forall k, m | k in s.db.threads && m in s.db.threads && s.db.threads[k].id == s.db.threads[m].id ensures k == m {
      assert IdsFresh(s.db);
    }
  }

  lemma DeleteTwice(db: Db, a: set<nat>, b: set<nat>)
    ensures DeleteThreads(DeleteThreads(db, a), b) == DeleteThreads(db, a + b)
  {
  }

  lemma StaleAfterDelete(db: Db, ids: set<nat>, before: int)
    ensures Stale(DeleteThreads(db, ids), before) == Stale(db, before) - ids
  {
    var db' := DeleteThreads(db, ids);
    forall id | id in Stale(db, before) - ids ensures id in Stale(db', before) {
      var k :| k in db.threads && db.threads[k].isRead && db.threads[k].lastAt < before && db.threads[k].id == id;
      assert k in db'.threads;
    }
  }

  /** One more batch of stale threads. */
  lemma BatchCleans(db: Db, gone: set<nat>, ids: set<nat>, before: int)
    requires gone <= Stale(db, before) && ids <= Stale(DeleteThreads(db, gone), before)
    ensures gone !! ids && gone + ids <= Stale(db, before) && |gone + ids| == |gone| + |ids|
    ensures DeleteThreads(DeleteThreads(db, gone), ids) == DeleteThreads(db, gone + ids)
    ensures ids == Stale(DeleteThreads(db, gone), before) ==>
              gone + ids == Stale(db, before) && Stale(DeleteThreads(db, gone + ids), before) == {}
    ensures ids == {} ==> gone + ids == gone
  {
    StaleAfterDelete(db, gone, before);
    StaleAfterDelete(db, gone + ids, before);
    DeleteTwice(db, gone, ids);
  }

  class Repo {
    var details: map<DetailKey, Detail>
    var threads: map<ThreadKey, Thread>
    var nextId: nat

    ghost function View(): Db
      reads this
    {
      Db(details, threads, nextId)
    }

    constructor ()
      ensures View() == START.db
    {
      details, threads, nextId := map[], map[], 1;
    }

    method Insert(key: DetailKey) returns (inserted: bool)
      modifies this
      ensures (View(), inserted) == InsertDetail(old(View()), key)
    {
      if key in details {
        return false;
      }
      details := details[key := Detail(nextId, 0)];
      nextId := nextId + 1;
      return true;
    }

    method Upsert(key: ThreadKey, actor: Id, at: nat)
      modifies this
      ensures View() == UpsertThread(old(View()), key, actor, at)
    {
      if key in threads {
        var t := threads[key];
        var ids := Format(actor);
        if t.actorIds != "" {
          ids := ids + ("," + t.actorIds);
        }
        assert t.actorIds == "" ==> Format(actor) + "" == Format(actor);
        threads := threads[key := Thread(t.id, t.actorCount + 1, SubstringIndex(ids, ',', 3), false, at, t.history + [actor])];
      } else {
        threads := threads[key := Thread(nextId, 1, Format(actor), false, at, [actor])];
        nextId := nextId + 1;
      }
    }

    method Bind(detail: DetailKey, key: ThreadKey) returns (bound: bool)
      modifies this
      ensures (View(), bound) == BindThread(old(View()), detail, key)
    {
      bound := key in threads && detail in details;
      if bound {
        details := details[detail := details[detail].(thread := threads[key].id)];
      }
    }

    /** Logic.Notify when nothing stops it: the unique key is the gate, then count, then bind. */
    method Notify(detail: DetailKey, occurredAt: Option<nat>, now: nat) returns (inserted: bool)
      modifies this
      ensures (View(), inserted) == NotifyOnce(old(View()), detail, if occurredAt.Some? then occurredAt.value else now)
    {
      var at := now;
      if occurredAt.Some? {
        at := occurredAt.value;
      }
      inserted := Insert(detail);
      if !inserted {
        return;
      }
      var key := ThreadKey(detail.group, at / WINDOW_SECONDS);
      Upsert(key, detail.actor, at);
      var bound := Bind(detail, key);
    }

    /** At most `limit` of the stale threads, and all of them when there are no more than that. */
    method PluckStale(before: int, limit: nat) returns (ids: set<nat>)
      ensures ids <= Stale(View(), before)
      ensures |ids| <= limit && (|ids| < limit ==> ids == Stale(View(), before))
    {
      ids := {};
      var left := set k | k in threads && threads[k].isRead && threads[k].lastAt < before :: threads[k].id;
      while left != {} && |ids| < limit
        invariant ids !! left && ids + left == Stale(View(), before) && |ids| <= limit
        decreases left
      {
        var id :| id in left;
        ids, left := ids + {id}, left - {id};
      }
    }

    /** One transaction: the details first, then the threads. */
    method DeleteBatch(ids: set<nat>)
      modifies this
      ensures View() == DeleteThreads(old(View()), ids)
    {
      details := map k | k in details && details[k].thread !in ids :: details[k];
      threads := map k | k in threads && threads[k].id !in ids :: threads[k];
    }

    /** Deletes exactly the stale threads and the details bound to them, in batches, and says how many. */
    method Cleanup(before: int, batchSize: int) returns (deleted: nat)
      modifies this
      ensures View() == DeleteThreads(old(View()), Stale(old(View()), before))
      ensures Stale(View(), before) == {}
      ensures deleted == |Stale(old(View()), before)|
    {
      var batch := batchSize;
      if batch <= 0 {
        batch := 500;
      }
      deleted := 0;
      ghost var db0, gone: set<nat> := View(), {};
      assert DeleteThreads(db0, {}) == db0;
      while true
        invariant gone <= Stale(db0, before) && deleted == |gone| && View() == DeleteThreads(db0, gone)
        decreases Stale(db0, before) - gone
      {
        var ids := PluckStale(before, batch);
        BatchCleans(db0, gone, ids, before);
        if ids == {} {
          return;
        }
        DeleteBatch(ids);
        deleted := deleted + |ids|;
        gone := gone + ids;
        if |ids| < batch {
          return;
        }
      }
    }
  }
}
