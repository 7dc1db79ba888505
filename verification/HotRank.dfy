/** The hot board: likes, favourites and comments add to per-minute Redis sorted sets, a "score once" mark
    keeps one person from counting twice, and a query sums the minutes of a sliding window.
    Times are milliseconds. A key with a time to live is readable strictly before its expiry. */
module HotRank {
  import opened Text

  const MINUTE := 60_000
  const RETENTION_MINUTES := 70
  const RETENTION_SECONDS := RETENTION_MINUTES * 60
  const RETENTION := RETENTION_SECONDS * 1000
  const MERGE_TTL := 2 * MINUTE
  const DEFAULT_INTERVAL := 60

  datatype Kind = Like | Favorite | Comment
  datatype MarkKey = MarkKey(kind: Kind, video: Id, user: Id)

  /** A sorted set under a key that expires. */
  datatype Bucket = Bucket(scores: map<Id, int>, expiresAt: int)

  /** The three key families, by mark, by minute, and by (minute, interval). */
  datatype Store = Store(marks: map<MarkKey, int>, buckets: map<int, Bucket>, merges: map<(int, int), Bucket>)

  function Weight(kind: Kind): int {
    match kind
    case Like => 2
    case Favorite => 3
    case Comment => 1
  }

  /** The minute a moment falls in: time.Truncate(time.Minute), and the bucket key's timestamp. */
  function Minute(t: int): int { t / MINUTE }

  function Get(scores: map<Id, int>, video: Id): int {
    if video in scores then scores[video] else 0
  }

  /** What reading a minute's key gives at time t. */
  function LiveScores(s: Store, minute: int, t: int): map<Id, int> {
    if minute in s.buckets && t < s.buckets[minute].expiresAt then s.buckets[minute].scores else map[]
  }

  /** int(d / time.Second): Go truncates toward zero. */
  function WholeSeconds(d: int): int { if d >= 0 then d / 1000 else -((-d) / 1000) }

  function MarkTtlSeconds(at: int, now: int): int {
    var ttl := RETENTION_SECONDS - WholeSeconds(now - at);
    if ttl < 1 then 1 else ttl
  }

  /** The script behind ScoreOnce, run by Redis at time `exec` for a caller that read its clock at `now`. */
  function ScoreOnceStep(s: Store, key: MarkKey, weight: int, at: int, now: int, exec: int): (Store, bool) {
    if key in s.marks && exec < s.marks[key] then (s, false)
    else
      var scores := LiveScores(s, Minute(at), exec);
      (s.(marks := s.marks[key := exec + 1000 * MarkTtlSeconds(at, now)],
          buckets := s.buckets[Minute(at) := Bucket(scores[key.video := Get(scores, key.video) + weight], exec + RETENTION)]),
       true)
  }

  /** The moment an event counts for: its own time, but never the future. */
  function EventTime(occurredAt: int, now: int): int {
    if occurredAt <= 0 || occurredAt > now then now else occurredAt
  }

  /** Logic.score: an event as late as the retention is dropped. */
  function ScoreStep(s: Store, key: MarkKey, occurredAt: int, now: int, exec: int): (Store, bool) {
    var at := EventTime(occurredAt, now);
    if now - at >= RETENTION then (s, false) else ScoreOnceStep(s, key, Weight(key.kind), at, now, exec)
  }

  function AddScores(a: map<Id, int>, b: map<Id, int>): map<Id, int> {
    map v | v in a.Keys + b.Keys :: Get(a, v) + Get(b, v)
  }

  /** ZUNIONSTORE ... AGGREGATE SUM over the `interval` minutes that end with `minute`. */
  function Merge(s: Store, minute: int, interval: nat, t: int): map<Id, int> {
    if interval == 0 then map[]
    else AddScores(Merge(s, minute, interval - 1, t), LiveScores(s, minute - (interval - 1), t))
  }

  /** RemoveFromHotBuckets at time t. */
  function RemoveStep(s: Store, video: Id, minutes: int, t: int): Store {
    s.(buckets := map m | m in s.buckets ::
         if Minute(t) - minutes < m <= Minute(t) then s.buckets[m].(scores := s.buckets[m].scores - {video})
         else s.buckets[m])
  }

  function NormalizeInterval(interval: int): nat {
    if interval <= 0 then DEFAULT_INTERVAL else if interval > RETENTION_MINUTES then RETENTION_MINUTES else interval
  }

  /** The scores HotPage pages through at time t: this minute's cached merge, or a new one that it caches.
      Redis drops a destination key whose union is empty. */
  function HotScoresStep(s: Store, interval: nat, t: int): (Store, map<Id, int>) {
    var key := (Minute(t), interval);
    if key in s.merges && t < s.merges[key].expiresAt then (s, s.merges[key].scores)
    else
      var scores := Merge(s, Minute(t), interval, t);
      (s.(merges := if scores == map[] then s.merges - {key} else s.merges[key := Bucket(scores, t + MERGE_TTL)]), scores)
  }

  // ------------------------------------------------------------------ runs

  /** One accepted contribution, and whether a deletion of its video has taken it out again. */
  datatype Hit = Hit(key: MarkKey, at: int, exec: int, removed: bool)

  /** The store together with the history of what it accepted. */
  datatype Hot = Hot(store: Store, hits: seq<Hit>, clock: int)

  datatype Op =
    | OpScore(key: MarkKey, occurredAt: int, now: int, exec: int)
    | OpDelete(video: Id, t: int)
    | OpPage(interval: int, t: int)

  function TimeOf(op: Op): int {
    match op
    case OpScore(_, _, _, exec) => exec
    case OpDelete(_, t) => t
    case OpPage(_, t) => t
  }

  /** The clock does not run backwards. A scorer may have read it any time before its script runs. */
  predicate Enabled(h: Hot, op: Op) {
    h.clock <= TimeOf(op) && (op.OpScore? ==> op.now <= op.exec)
  }

  function MarkRemoved(hits: seq<Hit>, video: Id, lo: int, hi: int): (r: seq<Hit>)
    ensures |r| == |hits|
    ensures forall i :: 0 <= i < |r| ==> r[i] == hits[i].(removed := hits[i].removed || Counts(hits[i], video, lo, hi))
  {
    seq(|hits|, i requires 0 <= i < |hits| => hits[i].(removed := hits[i].removed || Counts(hits[i], video, lo, hi)))
  }

  /** The hit is a still counted contribution to the video in the minutes lo..hi. */
  predicate Counts(h: Hit, video: Id, lo: int, hi: int) {
    !h.removed && h.key.video == video && lo <= Minute(h.at) <= hi
  }

  function Apply(h: Hot, op: Op): Hot {
    match op
    case OpScore(key, occurredAt, now, exec) =>
      var (s, accepted) := ScoreStep(h.store, key, occurredAt, now, exec);
      Hot(s, if accepted then h.hits + [Hit(key, EventTime(occurredAt, now), exec, false)] else h.hits, exec)
    case OpDelete(video, t) =>
      Hot(RemoveStep(h.store, video, RETENTION_MINUTES, t),
          MarkRemoved(h.hits, video, Minute(t) - RETENTION_MINUTES + 1, Minute(t)), t)
    case OpPage(interval, t) =>
      h.(store := HotScoresStep(h.store, NormalizeInterval(interval), t).0, clock := t)
  }

  const EMPTY := Hot(Store(map[], map[], map[]), [], 0)

  predicate Feasible(h: Hot, ops: seq<Op>)
    decreases |ops|
  {
    ops == [] || (Enabled(h, ops[0]) && Feasible(Apply(h, ops[0]), ops[1..]))
  }

  function Run(h: Hot, ops: seq<Op>): Hot
    decreases |ops|
  {
    if ops == [] then h else Run(Apply(h, ops[0]), ops[1..])
  }

  /** The weights of the still counted contributions to the video in the minutes lo..hi. */
  function Sum(hits: seq<Hit>, video: Id, lo: int, hi: int): (r: int)
    ensures r >= 0
  {
    if hits == [] then 0
    else
      var h := hits[|hits| - 1];
      Sum(hits[..|hits| - 1], video, lo, hi) + if Counts(h, video, lo, hi) then Weight(h.key.kind) else 0
  }

  /** The people behind those contributions, by kind. */
  function People(hits: seq<Hit>, kind: Kind, video: Id, lo: int, hi: int): set<Id> {
    set i | 0 <= i < |hits| && hits[i].key.kind == kind && Counts(hits[i], video, lo, hi) :: hits[i].key.user
  }

  // ------------------------------------------------------------------ the invariant

  ghost predicate MarksOutliveWindow(h: Hot) {
    && (forall i :: 0 <= i < |h.hits| ==> h.hits[i].at <= h.hits[i].exec <= h.clock)
    && (forall i :: 0 <= i < |h.hits| ==>
          h.hits[i].key in h.store.marks && h.store.marks[h.hits[i].key] >= h.hits[i].at + RETENTION)
    && (forall i, j :: 0 <= i < j < |h.hits| && h.hits[i].key == h.hits[j].key ==>
          h.hits[j].exec >= h.hits[i].at + RETENTION)
  }

  ghost predicate MarksHaveCause(h: Hot) {
    forall k :: k in h.store.marks ==>
      exists i :: 0 <= i < |h.hits| && h.hits[i].key == k && h.store.marks[k] <= h.hits[i].exec + RETENTION
  }

  /** A minute that some later window can still name. */
  predicate Nameable(h: Hot, minute: int) { h.clock < (minute + RETENTION_MINUTES) * MINUTE }

  ghost predicate BucketHolds(h: Hot, minute: int) {
    var scores := if minute in h.store.buckets then h.store.buckets[minute].scores else map[];
    forall v: Id :: Get(scores, v) == Sum(h.hits, v, minute, minute)
      && (v in scores <==> Sum(h.hits, v, minute, minute) > 0)
  }

  ghost predicate BucketsExact(h: Hot) {
    && (forall m :: m in h.store.buckets ==> h.store.buckets[m].expiresAt >= (m + RETENTION_MINUTES) * MINUTE)
    && (forall m :: Nameable(h, m) ==> BucketHolds(h, m))
  }

  ghost predicate Inv(h: Hot) {
    MarksOutliveWindow(h) && MarksHaveCause(h) && BucketsExact(h)
  }

  lemma MinuteBounds(t: int)
    ensures Minute(t) * MINUTE <= t < (Minute(t) + 1) * MINUTE
  {
  }

  /** The mark of an accepted event lives until at least 70 minutes after the event, to the second. */
  lemma MarkLifetime(at: int, now: int, exec: int)
    requires at <= now <= exec && now - at < RETENTION
    ensures at + RETENTION <= exec + 1000 * MarkTtlSeconds(at, now) <= exec + RETENTION
    ensures at + RETENTION <= now + 1000 * MarkTtlSeconds(at, now) < at + RETENTION + 1000
    ensures MarkTtlSeconds(at, now) >= 1
  {
  }

  lemma ScoreKeepsMarks(h: Hot, op: Op)
    requires Inv(h) && Enabled(h, op) && op.OpScore?
    ensures MarksOutliveWindow(Apply(h, op)) && MarksHaveCause(Apply(h, op))
  {
    var at := EventTime(op.occurredAt, op.now);
    var h' := Apply(h, op);
    if ScoreStep(h.store, op.key, op.occurredAt, op.now, op.exec).1 {
      MarkLifetime(at, op.now, op.exec);
      AcceptKeepsWindow(h, h', Hit(op.key, at, op.exec, false), op.exec + 1000 * MarkTtlSeconds(at, op.now));
      AcceptKeepsCause(h, h', Hit(op.key, at, op.exec, false), op.exec + 1000 * MarkTtlSeconds(at, op.now));
    }
  }

  predicate Accepts(h: Hot, h': Hot, hit: Hit, expiry: int) {
    && h'.hits == h.hits + [hit] && h'.store.marks == h.store.marks[hit.key := expiry]
       && h'.clock == hit.exec >= h.clock
    && hit.at <= hit.exec <= expiry && hit.at + RETENTION <= expiry <= hit.exec + RETENTION
    && (hit.key in h.store.marks ==> h.store.marks[hit.key] <= hit.exec)
  }

  lemma AcceptKeepsWindow(h: Hot, h': Hot, hit: Hit, expiry: int)
    requires MarksOutliveWindow(h) && Accepts(h, h', hit, expiry)
    ensures MarksOutliveWindow(h')
  {
  }

  lemma AcceptKeepsCause(h: Hot, h': Hot, hit: Hit, expiry: int)
    requires MarksHaveCause(h) && Accepts(h, h', hit, expiry)
    ensures MarksHaveCause(h')
  {
    forall k | k in h'.store.marks
      ensures exists i :: 0 <= i < |h'.hits| && h'.hits[i].key == k && h'.store.marks[k] <= h'.hits[i].exec + RETENTION
    {
      if k == hit.key {
        assert h'.hits[|h.hits|].key == k;
      } else {
        var i :| 0 <= i < |h.hits| && h.hits[i].key == k && h.store.marks[k] <= h.hits[i].exec + RETENTION;
        assert h'.hits[i] == h.hits[i];
      }
    }
  }

  lemma SumSnoc(hits: seq<Hit>, h: Hit, video: Id, lo: int, hi: int)
    ensures Sum(hits + [h], video, lo, hi) == Sum(hits, video, lo, hi) + if Counts(h, video, lo, hi) then Weight(h.key.kind) else 0
  {
    assert (hits + [h])[..|hits|] == hits;
  }

  lemma ScoreKeepsBuckets(h: Hot, op: Op)
    requires Inv(h) && Enabled(h, op) && op.OpScore?
    ensures BucketsExact(Apply(h, op))
  {
    var at := EventTime(op.occurredAt, op.now);
    var h' := Apply(h, op);
    MinuteBounds(at);
    if h'.hits == h.hits {
      forall m | Nameable(h', m) ensures BucketHolds(h', m) { assert Nameable(h, m) && BucketHolds(h, m); }
    } else {
      forall m | Nameable(h', m) ensures BucketHolds(h', m) {
        assert Nameable(h, m) && BucketHolds(h, m);
        forall v: Id { SumSnoc(h.hits, h'.hits[|h.hits|], v, m, m); }
      }
    }
  }

  lemma {:induction false} SumRemoved(hits: seq<Hit>, video: Id, lo: int, hi: int, v: Id, m: int)
    ensures Sum(MarkRemoved(hits, video, lo, hi), v, m, m) == if v == video && lo <= m <= hi then 0 else Sum(hits, v, m, m)
  {
    if hits != [] {
      var n := |hits| - 1;
      SumRemoved(hits[..n], video, lo, hi, v, m);
      assert MarkRemoved(hits, video, lo, hi)[..n] == MarkRemoved(hits[..n], video, lo, hi);
    }
  }

  lemma DeleteKeepsInv(h: Hot, op: Op)
    requires Inv(h) && Enabled(h, op) && op.OpDelete?
    ensures Inv(Apply(h, op))
  {
    DeleteKeepsMarks(h, op);
    DeleteKeepsBuckets(h, op);
  }

  lemma DeleteKeepsMarks(h: Hot, op: Op)
    requires Inv(h) && Enabled(h, op) && op.OpDelete?
    ensures MarksOutliveWindow(Apply(h, op)) && MarksHaveCause(Apply(h, op))
  {
    var h' := Apply(h, op);
    forall k | k in h'.store.marks
      ensures exists i :: 0 <= i < |h'.hits| && h'.hits[i].key == k && h'.store.marks[k] <= h'.hits[i].exec + RETENTION
    {
      var i :| 0 <= i < |h.hits| && h.hits[i].key == k && h.store.marks[k] <= h.hits[i].exec + RETENTION;
      assert h'.hits[i].key == k;
    }
  }

  lemma DeleteKeepsBuckets(h: Hot, op: Op)
    requires Inv(h) && Enabled(h, op) && op.OpDelete?
    ensures forall m :: Nameable(Apply(h, op), m) ==> BucketHolds(Apply(h, op), m)
  {
    var h' := Apply(h, op);
    var lo, hi := Minute(op.t) - RETENTION_MINUTES + 1, Minute(op.t);
    forall m | Nameable(h', m) ensures BucketHolds(h', m) {
      assert Nameable(h, m) && BucketHolds(h, m);
      forall v: Id { SumRemoved(h.hits, op.video, lo, hi, v, m); }
    }
  }

  lemma StepKeepsInv(h: Hot, op: Op)
    requires Inv(h) && Enabled(h, op)
    ensures Inv(Apply(h, op))
  {
    match op
    case OpScore(_, _, _, _) =>
      ScoreKeepsMarks(h, op);
      ScoreKeepsBuckets(h, op);
    case OpDelete(_, _) =>
      DeleteKeepsInv(h, op);
    case OpPage(_, _) =>
      var h' := Apply(h, op);
      forall m | Nameable(h', m) ensures BucketHolds(h', m) { assert Nameable(h, m) && BucketHolds(h, m); }
  }

  lemma {:induction false} RunKeepsInv(h: Hot, ops: seq<Op>)
    requires Inv(h) && Feasible(h, ops)
    ensures Inv(Run(h, ops))
    decreases |ops|
  {
    if ops != [] {
      StepKeepsInv(h, ops[0]);
      RunKeepsInv(Apply(h, ops[0]), ops[1..]);
    }
  }

  /** What the events of some run, handled under a clock that does not run backwards, lead to. */
  ghost predicate Reachable(h: Hot) {
    exists ops :: Feasible(EMPTY, ops) && h == Run(EMPTY, ops)
  }

  lemma ReachableInv(h: Hot)
    requires Reachable(h)
    ensures Inv(h)
  {
    var ops :| Feasible(EMPTY, ops) && h == Run(EMPTY, ops);
    RunKeepsInv(EMPTY, ops);
  }

  // ------------------------------------------------------------------ one person counts once

  /** A page reads its clock, in `minute`, before Redis merges the buckets it has named, at time t. The oldest of
      the `interval` minutes is named in time if 70 minutes have not passed since it began. */
  predicate InTime(minute: int, interval: int, t: int) { t < (minute - interval + 1 + RETENTION_MINUTES) * MINUTE }

  /** A merge within the minute is in time, for every window of at most 70 minutes. */
  lemma SameMinuteIsInTime(t: int, interval: int)
    requires interval <= RETENTION_MINUTES
    ensures InTime(Minute(t), interval, t)
  {
    MinuteBounds(t);
  }

  /** In every run, no window of at most 70 minutes, at any later time, holds two accepted contributions of
      one kind by one person to one video, deleted or not. */
  lemma CountedOnce(h: Hot, q: int, interval: int, i: nat, j: nat)
    requires Reachable(h) && h.clock <= q && interval <= RETENTION_MINUTES
    requires i < |h.hits| && j < |h.hits|
    requires Minute(q) - interval < Minute(h.hits[i].at) && Minute(q) - interval < Minute(h.hits[j].at)
    ensures h.hits[i].key == h.hits[j].key ==> i == j
  {
    ReachableInv(h);
    SameMinuteIsInTime(q, interval);
    OncePerWindow(h, Minute(q), interval, q, i, j);
  }

  lemma OncePerWindow(h: Hot, minute: int, interval: int, t: int, i: nat, j: nat)
    requires MarksOutliveWindow(h) && h.clock <= t && InTime(minute, interval, t)
    requires i < |h.hits| && j < |h.hits|
    requires minute - interval < Minute(h.hits[i].at) && minute - interval < Minute(h.hits[j].at)
    ensures h.hits[i].key == h.hits[j].key ==> i == j
  {
    LeavesWindow(h.hits[i].at, minute, interval, t);
    LeavesWindow(h.hits[j].at, minute, interval, t);
  }

  /** 70 minutes after an event its minute is in no window named in time. */
  lemma LeavesWindow(at: int, minute: int, interval: int, t: int)
    requires InTime(minute, interval, t)
    ensures at + RETENTION <= t ==> Minute(at) <= minute - interval
  {
    MinuteBounds(at);
  }

  /** An event in time is turned away only because the same person's same kind of event for the same video
      was accepted less than 70 minutes before. */
  lemma TurnedAwayOnlyForARepeat(h: Hot, op: Op)
    requires Reachable(h) && Enabled(h, op) && op.OpScore?
    requires op.now - EventTime(op.occurredAt, op.now) < RETENTION
    ensures !ScoreStep(h.store, op.key, op.occurredAt, op.now, op.exec).1 ==>
              exists hit :: hit in h.hits && hit.key == op.key && op.exec - hit.exec < RETENTION
  {
    ReachableInv(h);
    if !ScoreStep(h.store, op.key, op.occurredAt, op.now, op.exec).1 {
      var i :| 0 <= i < |h.hits| && h.hits[i].key == op.key && h.store.marks[op.key] <= h.hits[i].exec + RETENTION;
      assert h.hits[i] in h.hits;
    }
  }

  // ------------------------------------------------------------------ which minute an event counts for

  /** Read at time t, the bucket of a minute gives this video that much. */
  function WeightAt(s: Store, minute: int, video: Id, t: int): int { Get(LiveScores(s, minute, t), video) }

  /** An event that is accepted with a time of its own adds its weight to its video in the minute of that time, and
      to nothing else, whenever it is handled. */
  lemma CountsForItsOwnMinute(h: Hot, key: MarkKey, occurredAt: int, now: int, exec: int, minute: int, video: Id)
    requires 0 < occurredAt <= now && |Apply(h, OpScore(key, occurredAt, now, exec)).hits| > |h.hits|
    ensures var h' := Apply(h, OpScore(key, occurredAt, now, exec));
            && now - occurredAt < RETENTION
            && h'.hits == h.hits + [Hit(key, occurredAt, exec, false)]
            && WeightAt(h'.store, minute, video, exec) == WeightAt(h.store, minute, video, exec) +
                 if minute == occurredAt / MINUTE && video == key.video
                 then (match key.kind case Like => 2 case Favorite => 3 case Comment => 1) else 0
  {
  }

  /** One without a time, or with a time to come, counts for the minute in which it is handled. */
  lemma CountsForThePresent(h: Hot, key: MarkKey, occurredAt: int, now: int, exec: int)
    requires occurredAt <= 0 || occurredAt > now
    ensures Apply(h, OpScore(key, occurredAt, now, exec)) == Apply(h, OpScore(key, 0, now, exec))
    ensures now > 0 ==> Apply(h, OpScore(key, occurredAt, now, exec)) == Apply(h, OpScore(key, now, now, exec))
  {
  }

  /** One handled 70 minutes after its time or later changes nothing. */
  lemma LateEventsAreDropped(h: Hot, key: MarkKey, occurredAt: int, now: int, exec: int)
    requires 0 < occurredAt <= now - RETENTION
    ensures Apply(h, OpScore(key, occurredAt, now, exec)) == h.(clock := exec)
  {
  }

  /** An event in time is accepted exactly when no mark of the same person, kind and video lives. */
  lemma AcceptedExactlyWithoutAMark(h: Hot, key: MarkKey, occurredAt: int, now: int, exec: int)
    requires now - RETENTION < occurredAt
    ensures |Apply(h, OpScore(key, occurredAt, now, exec)).hits| > |h.hits| <==>
            !(key in h.store.marks && exec < h.store.marks[key])
  {
  }

  lemma {:induction false} HitsStay(h: Hot, ops: seq<Op>, i: nat)
    requires Feasible(h, ops) && i < |h.hits|
    ensures i < |Run(h, ops).hits| && Run(h, ops).hits[i].key == h.hits[i].key && Run(h, ops).hits[i].at == h.hits[i].at
    decreases |ops|
  {
    if ops != [] {
      HitsStay(Apply(h, ops[0]), ops[1..], i);
    }
  }

  lemma StepIsReachable(h: Hot, op: Op)
    requires Reachable(h) && Enabled(h, op)
    ensures Reachable(Apply(h, op))
  {
    var ops :| Feasible(EMPTY, ops) && h == Run(EMPTY, ops);
    RunOn(EMPTY, ops, [op]);
    assert [op][1..] == [] && Feasible(Apply(h, op), []);
  }

  lemma {:induction false} RunOn(h: Hot, a: seq<Op>, b: seq<Op>)
    requires Feasible(h, a)
    ensures Feasible(Run(h, a), b) ==> Feasible(h, a + b)
    ensures Run(h, a + b) == Run(Run(h, a), b)
    decreases |a|
  {
    if a == [] {
      assert a + b == b;
    } else {
      RunOn(Apply(h, a[0]), a[1..], b);
      assert (a + b)[0] == a[0] && (a + b)[1..] == a[1..] + b;
    }
  }

  lemma MarkOutlivesTheEvent(accepted: Hot, since: seq<Op>, i: nat)
    requires Reachable(accepted) && Feasible(accepted, since) && i < |accepted.hits|
    ensures var hit, marks := accepted.hits[i], Run(accepted, since).store.marks;
            hit.key in marks && marks[hit.key] >= hit.at + RETENTION
  {
    HitsStay(accepted, since, i);
    ReachableInv(accepted);
    RunKeepsInv(accepted, since);
  }

  lemma MarkedIsRefused(h: Hot, key: MarkKey, occurredAt: int, now: int, exec: int)
    requires 0 < occurredAt && key in h.store.marks && h.store.marks[key] >= occurredAt + RETENTION
    requires exec < occurredAt + RETENTION || now >= occurredAt + RETENTION
    ensures Apply(h, OpScore(key, occurredAt, now, exec)) == h.(clock := exec)
  {
  }

  /** Delivered again, after whatever has happened since, an event accepted once changes nothing if its script runs
      less than 70 minutes after its time, or if its handler starts 70 minutes after its time or later. */
  lemma RedeliveryIsRefused(h: Hot, key: MarkKey, occurredAt: int, now: int, exec: int, since: seq<Op>, later: int, again: int)
    requires Reachable(h) && Enabled(h, OpScore(key, occurredAt, now, exec)) && 0 < occurredAt <= now
    requires |Apply(h, OpScore(key, occurredAt, now, exec)).hits| > |h.hits|
    requires Feasible(Apply(h, OpScore(key, occurredAt, now, exec)), since)
    requires again < occurredAt + RETENTION || later >= occurredAt + RETENTION
    ensures var end := Run(Apply(h, OpScore(key, occurredAt, now, exec)), since);
            Apply(end, OpScore(key, occurredAt, later, again)) == end.(clock := again)
  {
    var accepted := Apply(h, OpScore(key, occurredAt, now, exec));
    assert accepted.hits[|h.hits|] == Hit(key, occurredAt, exec, false) by { CountsForItsOwnMinute(h, key, occurredAt, now, exec, 0, 0); }
    StepIsReachable(h, OpScore(key, occurredAt, now, exec));
    MarkOutlivesTheEvent(accepted, since, |h.hits|);
    MarkedIsRefused(Run(accepted, since), key, occurredAt, later, again);
  }

  // ------------------------------------------------------------------ the window is exact

  lemma {:induction false} SumSplit(hits: seq<Hit>, video: Id, lo: int, hi: int)
    requires lo <= hi
    ensures Sum(hits, video, lo, hi) == Sum(hits, video, lo + 1, hi) + Sum(hits, video, lo, lo)
  {
    if hits != [] {
      SumSplit(hits[..|hits| - 1], video, lo, hi);
    }
  }

  lemma {:induction false} SumEmptyWindow(hits: seq<Hit>, video: Id, lo: int, hi: int)
    requires lo > hi
    ensures Sum(hits, video, lo, hi) == 0
  {
    if hits != [] {
      SumEmptyWindow(hits[..|hits| - 1], video, lo, hi);
    }
  }

  /** No bucket a window names in time has expired, so the merge is the sum over the window. */
  lemma {:induction false} MergeIsSum(h: Hot, minute: int, interval: nat, t: int, video: Id)
    requires BucketsExact(h) && h.clock <= t && InTime(minute, interval, t)
    ensures var merged := Merge(h.store, minute, interval, t);
            var total := Sum(h.hits, video, minute - interval + 1, minute);
            Get(merged, video) == total && (video in merged <==> total > 0)
    decreases interval
  {
    if interval == 0 {
      SumEmptyWindow(h.hits, video, minute + 1, minute);
    } else {
      var m := minute - (interval - 1);
      MergeIsSum(h, minute, interval - 1, t, video);
      SumSplit(h.hits, video, m, minute);
      assert t < (m + RETENTION_MINUTES) * MINUTE;
      assert Nameable(h, m);
      assert BucketHolds(h, m);
    }
  }

  /** No person is behind two of the counted contributions of one kind. */
  ghost predicate OneEach(hits: seq<Hit>, video: Id, lo: int, hi: int) {
    forall i, j :: 0 <= i < j < |hits| && Counts(hits[i], video, lo, hi) && Counts(hits[j], video, lo, hi) ==>
      hits[i].key != hits[j].key
  }

  lemma {:induction false} SumCountsPeople(hits: seq<Hit>, video: Id, lo: int, hi: int)
    requires OneEach(hits, video, lo, hi)
    ensures Sum(hits, video, lo, hi) == 2 * |People(hits, Like, video, lo, hi)|
                                       + 3 * |People(hits, Favorite, video, lo, hi)|
                                       + |People(hits, Comment, video, lo, hi)|
  {
    if hits != [] {
      var n := |hits| - 1;
      var h := hits[n];
      SumCountsPeople(hits[..n], video, lo, hi);
      PeopleSnoc(hits, Like, video, lo, hi);
      PeopleSnoc(hits, Favorite, video, lo, hi);
      PeopleSnoc(hits, Comment, video, lo, hi);
    }
  }

  lemma PeopleSnoc(hits: seq<Hit>, kind: Kind, video: Id, lo: int, hi: int)
    requires hits != []
    requires OneEach(hits, video, lo, hi)
    ensures var n := |hits| - 1;
            |People(hits, kind, video, lo, hi)| == |People(hits[..n], kind, video, lo, hi)|
              + if hits[n].key.kind == kind && Counts(hits[n], video, lo, hi) then 1 else 0
  {
    var n := |hits| - 1;
    var h := hits[n];
    PeopleAfter(hits, kind, video, lo, hi);
    if h.key.kind == kind && Counts(h, video, lo, hi) { LastIsNewcomer(hits, video, lo, hi); }
  }

  lemma PeopleAfter(hits: seq<Hit>, kind: Kind, video: Id, lo: int, hi: int)
    requires hits != []
    ensures var n := |hits| - 1;
            People(hits, kind, video, lo, hi) == People(hits[..n], kind, video, lo, hi)
              + if hits[n].key.kind == kind && Counts(hits[n], video, lo, hi) then {hits[n].key.user} else {}
  {
    var n := |hits| - 1;
    var h := hits[n];
    var all, before := People(hits, kind, video, lo, hi), People(hits[..n], kind, video, lo, hi);
    forall u | u in before ensures u in all {
      var i :| 0 <= i < n && hits[..n][i].key.kind == kind && Counts(hits[..n][i], video, lo, hi)
        && hits[..n][i].key.user == u;
      assert hits[i].key.user == u;
    }
    forall u | u in all
      ensures u in before || (h.key.kind == kind && Counts(h, video, lo, hi) && u == h.key.user)
    {
      var i :| 0 <= i < |hits| && hits[i].key.kind == kind && Counts(hits[i], video, lo, hi) && hits[i].key.user == u;
      if i < n { assert hits[..n][i] == hits[i]; }
    }
  }

  lemma LastIsNewcomer(hits: seq<Hit>, video: Id, lo: int, hi: int)
    requires hits != [] && OneEach(hits, video, lo, hi) && Counts(hits[|hits| - 1], video, lo, hi)
    ensures var h := hits[|hits| - 1]; h.key.user !in People(hits[..|hits| - 1], h.key.kind, video, lo, hi)
  {
    var n := |hits| - 1;
    var h := hits[n];
    forall i | 0 <= i < n && Counts(hits[i], video, lo, hi)
      ensures hits[..n][i].key.kind != h.key.kind || hits[..n][i].key.user != h.key.user
    {
      assert hits[i].key != h.key;
    }
  }

  /** After any run, a newly built board over a window named in time, as is every window of at most 70 minutes
      merged within its minute, gives every video twice the number of
      people whose like counts in the window, three times the favourites and once the comments, each person once
      per kind; and it lists exactly the videos with someone to count. */
  lemma BoardCountsPeople(h: Hot, minute: int, interval: nat, t: int, video: Id)
    requires Reachable(h) && h.clock <= t && InTime(minute, interval, t)
    ensures var merged := Merge(h.store, minute, interval, t);
            var lo, hi := minute - interval + 1, minute;
            var likers, keepers, commenters :=
              People(h.hits, Like, video, lo, hi), People(h.hits, Favorite, video, lo, hi), People(h.hits, Comment, video, lo, hi);
            && Get(merged, video) == 2 * |likers| + 3 * |keepers| + |commenters|
            && (video in merged <==> likers + keepers + commenters != {})
  {
    BoardIsSum(h, minute, interval, t, video);
    BoardOfPeople(Merge(h.store, minute, interval, t), h.hits, video, minute - interval + 1, minute);
  }

  lemma BoardOfPeople(merged: map<Id, int>, hits: seq<Hit>, video: Id, lo: int, hi: int)
    requires OneEach(hits, video, lo, hi)
    requires Get(merged, video) == Sum(hits, video, lo, hi) && (video in merged <==> Sum(hits, video, lo, hi) > 0)
    ensures var likers, keepers, commenters :=
              People(hits, Like, video, lo, hi), People(hits, Favorite, video, lo, hi), People(hits, Comment, video, lo, hi);
            && Get(merged, video) == 2 * |likers| + 3 * |keepers| + |commenters|
            && (video in merged <==> likers + keepers + commenters != {})
  {
    PeopleOfSum(hits, video, lo, hi);
  }

  lemma BoardIsSum(h: Hot, minute: int, interval: nat, t: int, video: Id)
    requires Reachable(h) && h.clock <= t && InTime(minute, interval, t)
    ensures var lo, hi := minute - interval + 1, minute;
            && Get(Merge(h.store, hi, interval, t), video) == Sum(h.hits, video, lo, hi)
            && (video in Merge(h.store, hi, interval, t) <==> Sum(h.hits, video, lo, hi) > 0)
            && OneEach(h.hits, video, lo, hi)
  {
    ReachableInv(h);
    MergeIsSum(h, minute, interval, t, video);
    WindowOneEach(h, minute, interval, t, video);
  }

  /** For whatever has happened by then, the merge of these minutes at time t is the sum over them. */
  ghost predicate MergeIsExact(minute: int, interval: nat, t: int) {
    forall h, video :: Reachable(h) && h.clock <= t ==> MergedIsSum(h, minute, interval, t, video)
  }

  predicate MergedIsSum(h: Hot, minute: int, interval: nat, t: int, video: Id) {
    var merged, total := Merge(h.store, minute, interval, t), Sum(h.hits, video, minute - interval + 1, minute);
    Get(merged, video) == total && (video in merged <==> total > 0)
  }

  /** The merge of a window is exact after every run if and only if 70 minutes have not passed since the oldest
      minute of the window began. */
  lemma MergeIsExactExactlyInTime(minute: int, interval: nat, t: int)
    requires interval > 0 && minute - interval + 1 >= 0
    ensures MergeIsExact(minute, interval, t) <==> InTime(minute, interval, t)
  {
    if InTime(minute, interval, t) {
      forall h, video | Reachable(h) && h.clock <= t ensures MergedIsSum(h, minute, interval, t, video) {
        BoardIsSum(h, minute, interval, t, video);
      }
    } else {
      var key, at := MarkKey(Like, 1, 1), (minute - interval + 1) * MINUTE;
      LateMergeLosesAMinute(key, minute, interval, t);
      var h := Apply(EMPTY, OpScore(key, at, at, at));
      assert Sum(h.hits[..0], 1, minute - interval + 1, minute) == 0;
      assert !MergedIsSum(h, minute, interval, t, 1);
    }
  }

  /** A merge that comes too late misses a contribution made the moment its oldest minute began. */
  lemma LateMergeLosesAMinute(key: MarkKey, minute: int, interval: nat, t: int)
    requires interval > 0 && minute - interval + 1 >= 0 && !InTime(minute, interval, t)
    ensures var oldest := minute - interval + 1;
            var h := Apply(EMPTY, OpScore(key, oldest * MINUTE, oldest * MINUTE, oldest * MINUTE));
            && Reachable(h) && h.clock <= t && |h.hits| == 1 && Counts(h.hits[0], key.video, oldest, minute)
            && key.video !in Merge(h.store, minute, interval, t)
  {
    var oldest := minute - interval + 1;
    var op := OpScore(key, oldest * MINUTE, oldest * MINUTE, oldest * MINUTE);
    var h := Apply(EMPTY, op);
    assert [op][1..] == [] && Feasible(h, []);
    assert Feasible(EMPTY, [op]) && Run(EMPTY, [op]) == h;
    assert Minute(oldest * MINUTE) == oldest;
    assert h.store.buckets.Keys == {oldest} && h.store.buckets[oldest].expiresAt == oldest * MINUTE + RETENTION;
    NothingLive(h.store, minute, interval, t);
  }

  lemma {:induction false} NothingLive(s: Store, minute: int, interval: nat, t: int)
    requires forall m :: m in s.buckets ==> s.buckets[m].expiresAt <= t
    ensures Merge(s, minute, interval, t) == map[]
  {
    if interval > 0 {
      NothingLive(s, minute, interval - 1, t);
      assert LiveScores(s, minute - (interval - 1), t) == map[];
    }
  }

  lemma PeopleOfSum(hits: seq<Hit>, video: Id, lo: int, hi: int)
    requires OneEach(hits, video, lo, hi)
    ensures var likers, keepers, commenters :=
              People(hits, Like, video, lo, hi), People(hits, Favorite, video, lo, hi), People(hits, Comment, video, lo, hi);
            && Sum(hits, video, lo, hi) == 2 * |likers| + 3 * |keepers| + |commenters|
            && (Sum(hits, video, lo, hi) > 0 <==> likers + keepers + commenters != {})
  {
    SumCountsPeople(hits, video, lo, hi);
    var likers, keepers, commenters :=
      People(hits, Like, video, lo, hi), People(hits, Favorite, video, lo, hi), People(hits, Comment, video, lo, hi);
    assert likers + keepers + commenters == {} <==> |likers| + |keepers| + |commenters| == 0;
  }

  lemma WindowOneEach(h: Hot, minute: int, interval: nat, t: int, video: Id)
    requires MarksOutliveWindow(h) && h.clock <= t && InTime(minute, interval, t)
    ensures OneEach(h.hits, video, minute - interval + 1, minute)
  {
    var lo, hi := minute - interval + 1, minute;
    forall i, j | 0 <= i < j < |h.hits| && Counts(h.hits[i], video, lo, hi) && Counts(h.hits[j], video, lo, hi)
      ensures h.hits[i].key != h.hits[j].key
    {
      OncePerWindow(h, minute, interval, t, i, j);
    }
  }

  // ------------------------------------------------------------------ a deleted video stays out

  /** The video has nothing counted in any window of a minute after `minute`, and no board cached for such a
      minute lists it. */
  ghost predicate OutAfter(h: Hot, video: Id, minute: int) {
    && (forall i :: 0 <= i < |h.hits| ==> !Counts(h.hits[i], video, minute - RETENTION_MINUTES + 1, Minute(h.clock)))
    && (forall k :: k in h.store.merges && k.0 > minute ==> video !in h.store.merges[k].scores)
  }

  lemma {:induction false} SumNothing(hits: seq<Hit>, video: Id, lo: int, hi: int)
    requires forall i :: 0 <= i < |hits| ==> !Counts(hits[i], video, lo, hi)
    ensures Sum(hits, video, lo, hi) == 0
  {
    if hits != [] {
      SumNothing(hits[..|hits| - 1], video, lo, hi);
    }
  }

  ghost predicate CachesAreOfThePast(h: Hot) {
    forall k :: k in h.store.merges ==> k.0 <= Minute(h.clock)
  }

  lemma {:induction false} RunKeepsCachesPast(h: Hot, ops: seq<Op>)
    requires CachesAreOfThePast(h) && Feasible(h, ops)
    ensures CachesAreOfThePast(Run(h, ops))
    decreases |ops|
  {
    if ops != [] {
      assert Minute(h.clock) <= Minute(TimeOf(ops[0]));
      RunKeepsCachesPast(Apply(h, ops[0]), ops[1..]);
    }
  }

  lemma BoardWithoutIt(h: Hot, video: Id, minute: int, q: int, interval: nat)
    requires BucketsExact(h) && OutAfter(h, video, minute) && h.clock <= q && interval <= RETENTION_MINUTES
    requires MarksOutliveWindow(h) && minute <= Minute(q)
    ensures video !in Merge(h.store, Minute(q), interval, q)
  {
    SameMinuteIsInTime(q, interval);
    MergeIsSum(h, Minute(q), interval, q, video);
    var lo := Minute(q) - interval + 1;
    forall i | 0 <= i < |h.hits| ensures !Counts(h.hits[i], video, lo, Minute(q)) {
      assert Minute(h.hits[i].at) <= Minute(h.clock);
    }
    SumNothing(h.hits, video, lo, Minute(q));
  }

  lemma OutStaysOut(h: Hot, op: Op, video: Id, minute: int)
    requires Inv(h) && OutAfter(h, video, minute) && Enabled(h, op) && minute <= Minute(h.clock)
    requires op.OpScore? ==> op.key.video != video
    ensures OutAfter(Apply(h, op), video, minute)
  {
    var h' := Apply(h, op);
    assert Minute(h.clock) <= Minute(TimeOf(op));
    forall i | 0 <= i < |h'.hits|
      ensures !Counts(h'.hits[i], video, minute - RETENTION_MINUTES + 1, Minute(h'.clock))
    {
      if i < |h.hits| {
        assert Minute(h.hits[i].at) <= Minute(h.clock);
        assert !Counts(h.hits[i], video, minute - RETENTION_MINUTES + 1, Minute(h.clock));
      }
    }
    if op.OpPage? {
      BoardWithoutIt(h, video, minute, op.t, NormalizeInterval(op.interval));
    }
  }

  lemma {:induction false} OutThroughRun(h: Hot, ops: seq<Op>, video: Id, minute: int)
    requires Inv(h) && Feasible(h, ops) && OutAfter(h, video, minute) && minute <= Minute(h.clock)
    requires forall op :: op in ops && op.OpScore? ==> op.key.video != video
    ensures OutAfter(Run(h, ops), video, minute) && Inv(Run(h, ops)) && minute <= Minute(Run(h, ops).clock)
    decreases |ops|
  {
    if ops != [] {
      OutStaysOut(h, ops[0], video, minute);
      StepKeepsInv(h, ops[0]);
      assert Minute(h.clock) <= Minute(TimeOf(ops[0]));
      assert forall op :: op in ops[1..] ==> op in ops;
      OutThroughRun(Apply(h, ops[0]), ops[1..], video, minute);
    }
  }

  /** Once a deletion event has been handled, and until a new contribution to the video arrives, no newly
      built board lists it, and from the next minute on no page lists it, cached boards included. */
  lemma DeletedVideoLeavesTheBoard(h0: Hot, video: Id, t: int, after: seq<Op>, h: Hot, q: int, interval: int)
    requires Reachable(h0) && h0.clock <= t
    requires Feasible(Apply(h0, OpDelete(video, t)), after) && h == Run(Apply(h0, OpDelete(video, t)), after)
    requires forall op :: op in after && op.OpScore? ==> op.key.video != video
    requires h.clock <= q
    ensures video !in Merge(h.store, Minute(q), NormalizeInterval(interval), q)
    ensures Minute(t) < Minute(q) ==> video !in HotScoresStep(h.store, NormalizeInterval(interval), q).1
  {
    OutFromTheDeletionOn(h0, video, t, after);
    StillOut(h, video, Minute(t), q, NormalizeInterval(interval));
  }

  lemma OutFromTheDeletionOn(h0: Hot, video: Id, t: int, after: seq<Op>)
    requires Reachable(h0) && h0.clock <= t && Feasible(Apply(h0, OpDelete(video, t)), after)
    requires forall op :: op in after && op.OpScore? ==> op.key.video != video
    ensures var h := Run(Apply(h0, OpDelete(video, t)), after);
            Inv(h) && OutAfter(h, video, Minute(t)) && Minute(t) <= Minute(h.clock)
  {
    assert Inv(Apply(h0, OpDelete(video, t))) by {
      ReachableInv(h0);
      StepKeepsInv(h0, OpDelete(video, t));
    }
    OutAtOnce(h0, video, t);
    OutThroughRun(Apply(h0, OpDelete(video, t)), after, video, Minute(t));
  }

  /** A deletion takes the video out of the buckets of the last 70 minutes and leaves everything else. */
  lemma RemovalIsExact(s: Store, video: Id, t: int, minute: int, v: Id, now: int)
    ensures WeightAt(RemoveStep(s, video, RETENTION_MINUTES, t), minute, v, now) ==
              if v == video && t / (60 * 1000) - 70 < minute <= t / (60 * 1000) then 0 else WeightAt(s, minute, v, now)
  {
  }

  lemma StillOut(h: Hot, video: Id, minute: int, q: int, interval: nat)
    requires Inv(h) && OutAfter(h, video, minute) && minute <= Minute(h.clock) && h.clock <= q
             && interval <= RETENTION_MINUTES
    ensures video !in Merge(h.store, Minute(q), interval, q)
    ensures minute < Minute(q) ==> video !in HotScoresStep(h.store, interval, q).1
  {
    assert minute <= Minute(q);
    BoardWithoutIt(h, video, minute, q, interval);
  }

  lemma OutAtOnce(h: Hot, video: Id, t: int)
    requires Reachable(h) && h.clock <= t
    ensures OutAfter(Apply(h, OpDelete(video, t)), video, Minute(t))
  {
    var ops :| Feasible(EMPTY, ops) && h == Run(EMPTY, ops);
    RunKeepsCachesPast(EMPTY, ops);
    assert Minute(h.clock) <= Minute(t);
  }

  /** A board is cached under its own minute, so the first page asked for in a new minute is newly built. */
  lemma FirstPageOfAMinuteIsNew(h: Hot, q: int, interval: int)
    requires Reachable(h) && Minute(h.clock) < Minute(q)
    ensures HotScoresStep(h.store, NormalizeInterval(interval), q).1
            == Merge(h.store, Minute(q), NormalizeInterval(interval), q)
  {
    var ops :| Feasible(EMPTY, ops) && h == Run(EMPTY, ops);
    RunKeepsCachesPast(EMPTY, ops);
  }

  // ------------------------------------------------------------------ what a page is served

  /** Windows of 1 to 70 minutes are served as asked; without one it is 60. */
  lemma WindowServed(interval: int)
    ensures 1 <= NormalizeInterval(interval) <= 70
    ensures 1 <= interval <= 70 ==> NormalizeInterval(interval) == interval
    ensures interval <= 0 ==> NormalizeInterval(interval) == 60
    ensures interval > 70 ==> NormalizeInterval(interval) == 70
  {
  }

  predicate Cached(h: Hot, minute: int, interval: nat, board: map<Id, int>, until: int) {
    (minute, interval) in h.store.merges && h.store.merges[(minute, interval)] == Bucket(board, until)
  }

  lemma {:induction false} CachedStays(h: Hot, ops: seq<Op>, minute: int, interval: nat, board: map<Id, int>, until: int)
    requires Feasible(h, ops) && Cached(h, minute, interval, board, until)
    requires forall op :: op in ops ==> TimeOf(op) < until
    ensures Cached(Run(h, ops), minute, interval, board, until)
    decreases |ops|
  {
    if ops != [] {
      assert ops[0] in ops && forall op :: op in ops[1..] ==> op in ops;
      CachedStays(Apply(h, ops[0]), ops[1..], minute, interval, board, until);
    }
  }

  /** A board is cached under the minute in which it was built, for longer than that minute. */
  ghost predicate CachesOutliveTheirMinute(h: Hot) {
    forall k :: k in h.store.merges ==> Minute(h.store.merges[k].expiresAt - MERGE_TTL) == k.0
  }

  lemma {:induction false} RunKeepsCaches(h: Hot, ops: seq<Op>)
    requires CachesOutliveTheirMinute(h) && Feasible(h, ops)
    ensures CachesOutliveTheirMinute(Run(h, ops))
    decreases |ops|
  {
    if ops != [] {
      RunKeepsCaches(Apply(h, ops[0]), ops[1..]);
    }
  }

  lemma ServedIsCached(h: Hot, interval: int, t: int)
    requires CachesOutliveTheirMinute(h) && HotScoresStep(h.store, NormalizeInterval(interval), t).1 != map[]
    ensures exists until :: Minute(until - MERGE_TTL) == Minute(t) &&
              Cached(Apply(h, OpPage(interval, t)), Minute(t), NormalizeInterval(interval),
                     HotScoresStep(h.store, NormalizeInterval(interval), t).1, until)
  {
    var key := (Minute(t), NormalizeInterval(interval));
    var h' := Apply(h, OpPage(interval, t));
    assert Cached(h', key.0, key.1, HotScoresStep(h.store, key.1, t).1, h'.store.merges[key].expiresAt);
  }

  /** The pages of one minute are cut from one board: what one of them is served, every later page of that minute and
      window is served too, whatever is scored and deleted in between. */
  lemma OneBoardAMinute(h: Hot, interval: int, t: int, ops: seq<Op>, later: int)
    requires Reachable(h) && h.clock <= t && Minute(later) == Minute(t)
    requires Feasible(Apply(h, OpPage(interval, t)), ops) && forall op :: op in ops ==> TimeOf(op) <= later
    ensures var board := HotScoresStep(h.store, NormalizeInterval(interval), t).1;
            board != map[] ==>
              HotScoresStep(Run(Apply(h, OpPage(interval, t)), ops).store, NormalizeInterval(interval), later).1 == board
  {
    var before :| Feasible(EMPTY, before) && h == Run(EMPTY, before);
    RunKeepsCaches(EMPTY, before);
    var board := HotScoresStep(h.store, NormalizeInterval(interval), t).1;
    if board != map[] {
      ServedIsCached(h, interval, t);
      var until :| Minute(until - MERGE_TTL) == Minute(t)
        && Cached(Apply(h, OpPage(interval, t)), Minute(t), NormalizeInterval(interval), board, until);
      MinuteBounds(until - MERGE_TTL);
      MinuteBounds(later);
      CachedStays(Apply(h, OpPage(interval, t)), ops, Minute(t), NormalizeInterval(interval), board, until);
    }
  }

  /** So the board served is that of the people of the window: one that is newly built counts those of the last
      `interval` minutes, 60 without one and 70 at most, each once per kind. */
  lemma ServedBoardCountsPeople(h: Hot, interval: int, t: int, video: Id)
    requires Reachable(h) && h.clock <= t && (Minute(t), NormalizeInterval(interval)) !in h.store.merges
    ensures var board := HotScoresStep(h.store, NormalizeInterval(interval), t).1;
            var last := t / (60 * 1000);
            var first := last + 1 - (if interval <= 0 then 60 else if interval > 70 then 70 else interval);
            Get(board, video) == 2 * |People(h.hits, Like, video, first, last)| + 3 * |People(h.hits, Favorite, video, first, last)|
                                 + |People(h.hits, Comment, video, first, last)|
  {
    SameMinuteIsInTime(t, NormalizeInterval(interval));
    BoardCountsPeople(h, Minute(t), NormalizeInterval(interval), t, video);
  }

  // ------------------------------------------------------------------ the repository

  class HotRepo {
    var marks: map<MarkKey, int>
    var buckets: map<int, Bucket>
    var merges: map<(int, int), Bucket>

    ghost function View(): Store
      reads this
    {
      Store(marks, buckets, merges)
    }

    constructor ()
      ensures View() == EMPTY.store
    {
      marks, buckets, merges := map[], map[], map[];
    }

    /** Reading a sorted set by key. */
    method ZScores(minute: int, t: int) returns (scores: map<Id, int>)
      ensures scores == LiveScores(View(), minute, t)
    {
      scores := map[];
      if minute in buckets && t < buckets[minute].expiresAt {
        scores := buckets[minute].scores;
      }
    }

    method ScoreOnce(key: MarkKey, weight: int, at: int, now: int, exec: int) returns (scored: bool)
      modifies this
      ensures (View(), scored) == ScoreOnceStep(old(View()), key, weight, at, now, exec)
    {
      var ttl := RETENTION_SECONDS - WholeSeconds(now - at);
      if ttl < 1 {
        ttl := 1;
      }
      if key in marks && exec < marks[key] {
        return false;
      }
      var scores := ZScores(Minute(at), exec);
      marks := marks[key := exec + 1000 * ttl];
      var score := weight;
      if key.video in scores {
        score := score + scores[key.video];
      }
      buckets := buckets[Minute(at) := Bucket(scores[key.video := score], exec + RETENTION)];
      return true;
    }

    method ScoreEvent(key: MarkKey, occurredAt: int, now: int, exec: int) returns (scored: bool)
      modifies this
      ensures (View(), scored) == ScoreStep(old(View()), key, occurredAt, now, exec)
      ensures 0 < occurredAt <= now - RETENTION ==> !scored && View() == old(View())
      ensures scored && 0 < occurredAt <= now ==>
                && occurredAt / MINUTE in buckets
                && buckets == old(buckets)[occurredAt / MINUTE := buckets[occurredAt / MINUTE]]
    {
      var at := now;
      if occurredAt > 0 {
        at := occurredAt;
      }
      if at > now {
        at := now;
      }
      if now - at >= RETENTION {
        return false;
      }
      scored := ScoreOnce(key, Weight(key.kind), at, now, exec);
    }

    method MergeHotBuckets(minute: int, interval: nat, t: int) returns (scores: map<Id, int>)
      modifies this`merges
      ensures scores == Merge(old(View()), minute, interval, t)
      ensures merges == if scores == map[] then old(merges) - {(minute, interval)}
                        else old(merges)[(minute, interval) := Bucket(scores, t + MERGE_TTL)]
    {
      var keys: seq<int> := [];
      for i := 0 to interval
        invariant merges == old(merges)
        invariant |keys| == i && forall k :: 0 <= k < i ==> keys[k] == minute - k
      {
        keys := keys + [minute - i];
      }
      scores := map[];
      for i := 0 to |keys|
        invariant merges == old(merges)
        invariant scores == Merge(View(), minute, i, t)
      {
        var addend := ZScores(keys[i], t);
        scores := AddScores(scores, addend);
      }
      if scores == map[] {
        merges := merges - {(minute, interval)};
      } else {
        merges := merges[(minute, interval) := Bucket(scores, t + MERGE_TTL)];
      }
    }

    method HotScores(interval: nat, t: int) returns (scores: map<Id, int>)
      modifies this`merges
      ensures (View(), scores) == HotScoresStep(old(View()), interval, t)
    {
      var key := (Minute(t), interval);
      if key in merges && t < merges[key].expiresAt {
        scores := merges[key].scores;
      } else {
        scores := MergeHotBuckets(Minute(t), interval, t);
      }
    }

    method RemoveFromHotBuckets(video: Id, minutes: int, t: int)
      modifies this`buckets
      ensures View() == RemoveStep(old(View()), video, minutes, t)
    {
      if minutes <= 0 {
        return;
      }
      var now := Minute(t);
      for i := 0 to minutes
        invariant buckets == RemoveStep(old(View()), video, i, t).buckets
      {
        var m := now - i;
        if m in buckets {
          buckets := buckets[m := buckets[m].(scores := buckets[m].scores - {video})];
        }
      }
    }
  }
}
