/** The video detail cache: records with a logical expiry inside a longer physical one, markers for rows that
    do not exist, and the requests that change rows. Times are milliseconds, logical expiries seconds. */
module DetailCache {
  import opened Text
  import opened VideoStatus

  const LOGICAL_TTL := 300
  const MAX_STALE := 20 * 60
  const PHYSICAL_TTL := 24 * 60 * 60 * 1000
  const MISS_TTL := 2 * 60 * 1000
  const VIDEO_MAX := 10 * 1024 * 1024 * 1024
  const COVER_MAX := 10 * 1024 * 1024

  /** A video row. `comments` changes without the cache being told; everything else does not. */
  datatype Row = Row(author: Id, status: Status, likes: nat, comments: nat)

  datatype Record =
    | Miss(evictAt: int)
    | Hit(info: Row, expireAt: int, evictAt: int)

  datatype Sys = Sys(rows: map<Id, Row>, cache: map<Id, Record>, known: set<Id>)

  /** What a lookup gives: a record's content if there is any, and whether everyone may see it. */
  datatype Answer = Answer(info: Option<Row>, visible: bool)

  datatype Error = NotFound | Forbidden | BadRequest | Internal

  function Lookup(s: Sys, id: Id, t: int): Option<Record> {
    if id in s.cache && t < s.cache[id].evictAt then Some(s.cache[id]) else None
  }

  function SetInfo(s: Sys, id: Id, info: Row, t: int): Sys {
    s.(cache := s.cache[id := Hit(info, t / 1000 + LOGICAL_TTL, t + PHYSICAL_TTL)])
  }

  function SetMiss(s: Sys, id: Id, t: int): Sys {
    s.(cache := s.cache[id := Miss(t + MISS_TTL)])
  }

  function DropInfo(s: Sys, id: Id): Sys { s.(cache := s.cache - {id}) }

  /** Writing back what was read: a marker for no row, nothing for a row that is not public. */
  function WriteBack(s: Sys, id: Id, read: Option<Row>, t: int): Sys {
    match read
    case None => SetMiss(s, id, t)
    case Some(row) => if row.status == Published then SetInfo(s, id, row, t) else s
  }

  function AnswerFor(read: Option<Row>): Answer {
    match read
    case None => Answer(None, false)
    case Some(row) =>
      if row.status == Private then Answer(read, false)
      else if row.status != Published then Answer(None, false)
      else Answer(read, true)
  }

  function ReadRow(s: Sys, id: Id): Option<Row> {
    if id in s.rows then Some(s.rows[id]) else None
  }

  /** loadInfoFromDBAndWriteCache in one go. */
  function Load(s: Sys, id: Id, t: int): (Sys, Answer) {
    (WriteBack(s, id, ReadRow(s, id), t), AnswerFor(ReadRow(s, id)))
  }

  datatype Freshness = Current | Stale | TooOld

  function Age(expireAt: int, t: int): Freshness {
    var now := t / 1000;
    if expireAt > now then Current else if now - expireAt > MAX_STALE then TooOld else Stale
  }

  /** getInfoWithCache, with the background refresh of a stale record done at once. */
  function Get(s: Sys, id: Id, t: int): (Sys, Answer) {
    match Lookup(s, id, t)
    case None => Load(s, id, t)
    case Some(Miss(_)) => (s, Answer(None, false))
    case Some(Hit(info, expireAt, _)) =>
      match Age(expireAt, t)
      case TooOld => Load(s, id, t)
      case Stale => (Load(s, id, t).0, Answer(Some(info), true))
      case Current => (s, Answer(Some(info), true))
  }

  /** GetVideoInfo: what the user is shown, or None for "does not exist". */
  function Show(answer: Answer, user: Id): Option<Row> {
    if answer.visible then answer.info
    else if answer.info.None? || answer.info.value.author != user then None
    else answer.info
  }

  // ------------------------------------------------------------------ requests that change rows

  /** transitionStatus: who may do it, the conditional update, and the cache brought in line. */
  function Transition(s: Sys, id: Id, user: Id, move: Move, t: int): (Sys, Option<Error>, bool) {
    if id !in s.rows then (s, Some(NotFound), false)
    else if s.rows[id].author != user then (s, Some(Forbidden), false)
    else if s.rows[id].status != move.from then (s, None, false)
    else
      var row := s.rows[id].(status := move.to);
      var moved := DropInfo(s.(rows := s.rows[id := row]), id);
      (if move.to == Published then SetInfo(moved, id, row, t) else moved, None, true)
  }

  /** switchPrivate; the flag says whether its event is published. */
  function SwitchPrivate(s: Sys, id: Id, user: Id, toPrivate: bool, t: int): (Sys, Option<Error>, bool) {
    var move := if toPrivate then Move(Published, Private) else Move(Private, Published);
    var (s', err, migrated) := Transition(s, id, user, move, t);
    if err.Some? || migrated then (s', err, migrated)
    else if s.rows[id].status == move.to then (s, None, false)
    else (s, Some(BadRequest), false)
  }

  /** publish; sizes are what the object store reports, None when it has no such object. */
  function PublishFirst(s: Sys, id: Id, user: Id, playSize: Option<int>, coverSize: Option<int>, t: int): (Sys, Option<Error>, bool) {
    if id !in s.rows then (s, Some(NotFound), false)
    else if s.rows[id].author != user then (s, Some(Forbidden), false)
    else if playSize.None? || playSize.value <= 0 || playSize.value > VIDEO_MAX then (s, Some(BadRequest), false)
    else if coverSize.None? || coverSize.value > COVER_MAX then (s, Some(BadRequest), false)
    else Transition(s, id, user, Move(Created, Published), t)
  }

  function UpdateStatus(s: Sys, id: Id, user: Id, target: Status, playSize: Option<int>, coverSize: Option<int>, uploads: bool, t: int):
    (Sys, Option<Error>, bool)
  {
    match target
    case Published =>
      if id !in s.rows then (s, Some(NotFound), false)
      else if s.rows[id].author != user then (s, Some(Forbidden), false)
      else if s.rows[id].status == Private then SwitchPrivate(s, id, user, false, t)
      else PublishFirst(s, id, user, playSize, coverSize, t)
    case Private => SwitchPrivate(s, id, user, true, t)
    case Failed => (match Transition(s, id, user, Move(Created, Failed), t) case (s', err, _) => (s', err, false))
    case Created =>
      if !uploads then (s, Some(Internal), false)
      else (match Transition(s, id, user, Move(Failed, Created), t) case (s', err, _) => (s', err, false))
  }

  /** Who clears up after a deletion: nobody, the subscribers of VideoDeleted, or the request itself, which then
      removes the stored objects. */
  datatype Aftermath = Nothing | Announced | ObjectsRemoved

  /** The cache entry goes first, then the row. A video that has been out is announced as deleted; of one that
      never was, nobody else knows. */
  function DeleteVideo(s: Sys, id: Id, user: Id): (Sys, Option<Error>, Aftermath) {
    if id !in s.rows then (s, Some(NotFound), Nothing)
    else if s.rows[id].author != user then (s, Some(Forbidden), Nothing)
    else (DropInfo(s, id).(rows := s.rows - {id}), None, if Out(s.rows[id].status) then Announced else ObjectsRemoved)
  }

  /** HandleLikeSwitched: the recounted likes, then the cache entry goes. */
  function SyncLikes(s: Sys, id: Id, count: nat): Sys {
    DropInfo(if id in s.rows then s.(rows := s.rows[id := s.rows[id].(likes := count)]) else s, id)
  }

  // ------------------------------------------------------------------ requests one after another

  datatype Op =
    | OpNew(id: Id, author: Id)
    | OpStatus(id: Id, user: Id, target: Status, playSize: Option<int>, coverSize: Option<int>, uploads: bool, t: int)
    | OpDelete(id: Id, user: Id)
    | OpLikes(id: Id, count: nat)
    | OpComments(id: Id, count: nat)
    | OpGet(id: Id, t: int)

  /** A new row has a new ID. */
  function Apply(s: Sys, op: Op): Sys {
    match op
    case OpNew(id, author) =>
      if id in s.known then s
      else s.(rows := s.rows[id := Row(author, Created, 0, 0)], known := s.known + {id})
    case OpStatus(id, user, target, play, cover, uploads, t) => UpdateStatus(s, id, user, target, play, cover, uploads, t).0
    case OpDelete(id, user) => DeleteVideo(s, id, user).0
    case OpLikes(id, count) => SyncLikes(s, id, count)
    case OpComments(id, count) => if id in s.rows then s.(rows := s.rows[id := s.rows[id].(comments := count)]) else s
    case OpGet(id, t) => Get(s, id, t).0
  }

  const EMPTY := Sys(map[], map[], {})

  function Run(s: Sys, ops: seq<Op>): Sys
    decreases |ops|
  {
    if ops == [] then s else Run(Apply(s, ops[0]), ops[1..])
  }

  lemma {:induction false} RunGoesOn(s: Sys, ops: seq<Op>, op: Op)
    ensures Run(s, ops + [op]) == Apply(Run(s, ops), op)
    decreases |ops|
  {
    if ops == [] {
      assert ([] + [op])[1..] == [];
    } else {
      RunGoesOn(Apply(s, ops[0]), ops[1..], op);
      assert (ops + [op])[1..] == ops[1..] + [op];
    }
  }

  /** The record tells the truth: a hit is a published row, but for its comment count; a marker stands for no
      row, or one that has never been out. */
  ghost predicate Truthful(s: Sys, id: Id)
    requires id in s.cache
  {
    match s.cache[id]
    case Hit(info, _, _) =>
      id in s.rows && s.rows[id].status == Published && info == s.rows[id].(comments := info.comments)
    case Miss(_) => id in s.rows ==> !Out(s.rows[id].status)
  }

  ghost predicate Inv(s: Sys) {
    s.rows.Keys <= s.known && forall id :: id in s.cache ==> Truthful(s, id)
  }

  lemma LoadKeepsInv(s: Sys, id: Id, t: int)
    requires Inv(s)
    ensures Inv(Load(s, id, t).0)
  {
    var s' := Load(s, id, t).0;
    forall k | k in s'.cache ensures Truthful(s', k) { assert k != id ==> Truthful(s, k); }
  }

  lemma TransitionKeepsInv(s: Sys, id: Id, user: Id, move: Move, t: int)
    requires Inv(s)
    ensures Inv(Transition(s, id, user, move, t).0)
  {
    var s' := Transition(s, id, user, move, t).0;
    forall k | k in s'.cache ensures Truthful(s', k) { assert k != id ==> Truthful(s, k); }
  }

  lemma StatusKeepsInv(s: Sys, op: Op)
    requires Inv(s) && op.OpStatus?
    ensures Inv(Apply(s, op))
  {
    match op.target
    case Published =>
      TransitionKeepsInv(s, op.id, op.user, Move(Private, Published), op.t);
      TransitionKeepsInv(s, op.id, op.user, Move(Created, Published), op.t);
    case Private => TransitionKeepsInv(s, op.id, op.user, Move(Published, Private), op.t);
    case Failed => TransitionKeepsInv(s, op.id, op.user, Move(Created, Failed), op.t);
    case Created => TransitionKeepsInv(s, op.id, op.user, Move(Failed, Created), op.t);
  }

  lemma StepKeepsInv(s: Sys, op: Op)
    requires Inv(s)
    ensures Inv(Apply(s, op))
  {
    var s' := Apply(s, op);
    match op
    case OpStatus(_, _, _, _, _, _, _) => StatusKeepsInv(s, op);
    case OpGet(id, t) => LoadKeepsInv(s, id, t);
    case _ =>
      forall k | k in s'.cache ensures Truthful(s', k) { assert Truthful(s, k); }
  }

  lemma {:induction false} RunKeepsInv(s: Sys, ops: seq<Op>)
    requires Inv(s)
    ensures Inv(Run(s, ops))
    decreases |ops|
  {
    if ops != [] {
      StepKeepsInv(s, ops[0]);
      RunKeepsInv(Apply(s, ops[0]), ops[1..]);
    }
  }

  lemma TruthfulShows(s: Sys, id: Id, user: Id, t: int)
    requires Inv(s)
    ensures var shown := Show(Get(s, id, t).1, user);
            && (shown.Some? <==>
                  && id in s.rows
                  && (s.rows[id].status == Published || (s.rows[id].status == Private && s.rows[id].author == user)))
            && (shown.Some? ==> shown.value == s.rows[id].(comments := shown.value.comments))
  {
    if id in s.cache {
      assert Truthful(s, id);
    }
  }

  /** With requests handled one after another and no failing cache, the cache never lies: whoever asks for a
      video, at whatever time, is shown it exactly when it is public, or private and theirs, and what is shown
      is the row but for its comment count. */
  lemma CacheShowsTheRow(ops: seq<Op>, s: Sys, id: Id, user: Id, t: int)
    requires s == Run(EMPTY, ops)
    ensures var shown := Show(Get(s, id, t).1, user);
            && (shown.Some? <==>
                  && id in s.rows
                  && (s.rows[id].status == Published || (s.rows[id].status == Private && s.rows[id].author == user)))
            && (shown.Some? ==> shown.value == s.rows[id].(comments := shown.value.comments))
  {
    RunKeepsInv(EMPTY, ops);
    TruthfulShows(s, id, user, t);
  }

  /** Asked to publish, a video ends up public after "success" unless it had failed to upload: then the
      conditional update changes nothing and success is still reported. */
  lemma PublishSucceedsEmptyHanded(s: Sys, id: Id, user: Id, playSize: Option<int>, coverSize: Option<int>, uploads: bool, t: int)
    requires UpdateStatus(s, id, user, Published, playSize, coverSize, uploads, t).1.None?
    ensures var s' := UpdateStatus(s, id, user, Published, playSize, coverSize, uploads, t).0;
            id in s.rows && id in s'.rows && (s'.rows[id].status == Published <==> s.rows[id].status != Failed)
  {
  }

  // ------------------------------------------------------------------ who may change what

  /** Everything but the row of `id` is as it was, and that row but for its status. */
  predicate OnlyStatusOf(before: map<Id, Row>, after: map<Id, Row>, id: Id) {
    && after.Keys == before.Keys
    && forall k :: k in before ==> after[k] == if k == id then before[k].(status := after[k].status) else before[k]
  }

  /** A status request changes nothing but its video's status, and only for the video's author; and when it does,
      the video ends in the status asked for, by the one move that leads there, and its record is gone, or new where
      everyone may see it. */
  lemma OnlyTheAuthorMovesTowardsTheTarget(s: Sys, id: Id, user: Id, target: Status, playSize: Option<int>, coverSize: Option<int>,
                                           uploads: bool, t: int)
    ensures var (s', err, event) := UpdateStatus(s, id, user, target, playSize, coverSize, uploads, t);
            && OnlyStatusOf(s.rows, s'.rows, id) && s'.known == s.known
            && (s'.rows != s.rows ==>
                  && err.None? && s.rows[id].author == user && s'.rows[id].status == target
                  && Legal(Move(s.rows[id].status, target))
                  && s'.cache == if target == Published then s.cache[id := Hit(s'.rows[id], t / 1000 + 300, t + 24 * 60 * 60 * 1000)]
                                 else s.cache - {id})
            && (s'.rows == s.rows ==> s' == s && !event)
            && (event <==> s'.rows != s.rows && Out(target))
  {
  }

  /** And it does exactly when the row is the author's and in the one status from which the target is reached,
      with both objects uploaded where it is first published, and uploads configured where it is retried. */
  lemma StatusMovesExactlyWhen(s: Sys, id: Id, user: Id, target: Status, playSize: Option<int>, coverSize: Option<int>,
                               uploads: bool, t: int)
    ensures var (s', err, event) := UpdateStatus(s, id, user, target, playSize, coverSize, uploads, t);
            s'.rows != s.rows <==>
              && id in s.rows && s.rows[id].author == user
              && match target
                 case Published =>
                   || s.rows[id].status == Private
                   || (s.rows[id].status == Created && playSize.Some? && 0 < playSize.value <= 10 * 1024 * 1024 * 1024
                       && coverSize.Some? && coverSize.value <= 10 * 1024 * 1024)
                 case Private => s.rows[id].status == Published
                 case Failed => s.rows[id].status == Created
                 case Created => s.rows[id].status == Failed && uploads
  {
  }

  predicate Uploaded(playSize: Option<int>, coverSize: Option<int>) {
    playSize.Some? && 0 < playSize.value <= VIDEO_MAX && coverSize.Some? && coverSize.value <= COVER_MAX
  }

  /** What a refused request is told: there is no such video, it is somebody else's, the uploads are not there, or
      its status does not allow it. A request for the status that a video has already succeeds. */
  lemma StatusRefusals(s: Sys, id: Id, user: Id, target: Status, playSize: Option<int>, coverSize: Option<int>,
                       uploads: bool, t: int)
    ensures var (s', err, event) := UpdateStatus(s, id, user, target, playSize, coverSize, uploads, t);
            && (target == Created && !uploads ==> err == Some(Internal))
            && (target != Created || uploads ==>
                  && (id !in s.rows <==> err == Some(NotFound))
                  && (id in s.rows && s.rows[id].author != user <==> err == Some(Forbidden))
                  && (id in s.rows && s.rows[id].author == user ==>
                        (err == Some(BadRequest) <==>
                           || (target == Private && !Out(s.rows[id].status))
                           || (target == Published && s.rows[id].status != Private && !Uploaded(playSize, coverSize)))))
            && (err == Some(Internal) ==> target == Created && !uploads)
  {
  }

  /** The author's request is one of the racing requests of VideoStatus that meets no other. */
  lemma StatusIsARun(s: Sys, id: Id, target: Status, playSize: Option<int>, coverSize: Option<int>, t: int,
                     before: VideoStatus.State, r: nat)
    requires id in s.rows && before.row == Some(s.rows[id].status) && r !in before.requests
    ensures var s' := UpdateStatus(s, id, s.rows[id].author, target, playSize, coverSize, true, t).0;
            var chosen := VideoStatus.Apply(VideoStatus.Apply(before, Receive(r, target)), Choose(r, Uploaded(playSize, coverSize)));
            var after := if r in chosen.requests then VideoStatus.Apply(chosen, Update(r)) else chosen;
            && id in s'.rows && after.row == Some(s'.rows[id].status)
            && after.moves == before.moves + (if s' == s then [] else [Move(s.rows[id].status, s'.rows[id].status)])
  {
  }

  /** A deletion is the author's alone. It takes the row and its record, so that nobody is shown the video any more,
      and leaves every other row; what was published or private is announced, and of anything else the objects go. */
  lemma OnlyTheAuthorDeletes(s: Sys, id: Id, user: Id, other: Id, t: int)
    ensures var (s', err, aftermath) := DeleteVideo(s, id, user);
            && (err.None? <==> id in s.rows && s.rows[id].author == user)
            && (err.None? ==>
                  && s'.rows == s.rows - {id} && Show(Get(s', id, t).1, other).None?
                  && (aftermath == Announced <==> s.rows[id].status in {Published, Private})
                  && (aftermath == ObjectsRemoved <==> s.rows[id].status in {Created, Failed}))
            && (err.Some? ==> s' == s && aftermath == Nothing && err == Some(if id in s.rows then Forbidden else NotFound))
  {
  }

  // ------------------------------------------------------------------ the life of a record

  /** What a load at t leaves is answered with: a public row for 300 s untouched, for 1200 s more while it is refreshed,
      and then not at all; a marker for two minutes. */
  lemma RecordLives(s: Sys, id: Id, t: int, later: int)
    requires t <= later
    ensures var loaded := Load(s, id, t).0;
            var (after, answer) := Get(loaded, id, later);
            var age := later / 1000 - t / 1000;
            && (id in s.rows && s.rows[id].status == Published ==>
                  && (age <= 1500 ==> answer == Answer(Some(s.rows[id]), true))
                  && (age < 300 ==> after == loaded)
                  && (age >= 300 ==> (after, answer) == Load(loaded, id, later)))
            && (id !in s.rows ==>
                  answer == Answer(None, false) && (after == if later < t + 2 * 60 * 1000 then loaded else Load(loaded, id, later).0))
  {
  }

  /** A stale record is answered with as it is, though the row has changed; the row is read for the next reader. Past
      1200 s the reader gets the row itself. */
  lemma StaleIsServedAndRefreshed(s: Sys, id: Id, info: Row, expireAt: int, evictAt: int, t: int)
    requires id in s.cache && s.cache[id] == Hit(info, expireAt, evictAt) && t < evictAt
    ensures var (after, answer) := Get(s, id, t);
            && (t / 1000 < expireAt ==> after == s && answer == Answer(Some(info), true))
            && (expireAt <= t / 1000 <= expireAt + 1200 ==> after == Load(s, id, t).0 && answer == Answer(Some(info), true))
            && (t / 1000 > expireAt + 1200 ==> (after, answer) == Load(s, id, t))
  {
  }

  /** While a marker lives nobody is shown the video; past it, or with nothing in the cache, the row is read. */
  lemma MarkerHides(s: Sys, id: Id, t: int, user: Id)
    ensures id in s.cache && s.cache[id].Miss? && t < s.cache[id].evictAt ==>
              Get(s, id, t).0 == s && Show(Get(s, id, t).1, user).None?
    ensures id !in s.cache || t >= s.cache[id].evictAt ==> Get(s, id, t) == Load(s, id, t)
  {
  }

  /** The row itself: whoever may see it, and what a load of it leaves in the cache. */
  lemma LoadShowsTheRow(s: Sys, id: Id, t: int, user: Id)
    ensures var (after, answer) := Load(s, id, t);
            && after.rows == s.rows && after.known == s.known
            && Show(answer, user) ==
                 (if id in s.rows && (s.rows[id].status == Published || (s.rows[id].status == Private && s.rows[id].author == user))
                  then Some(s.rows[id]) else None)
            && after.cache ==
                 if id !in s.rows then s.cache[id := Miss(t + 2 * 60 * 1000)]
                 else if s.rows[id].status == Published then s.cache[id := Hit(s.rows[id], t / 1000 + 300, t + 24 * 60 * 60 * 1000)]
                 else s.cache
  {
  }

  /** A count of likes that has been stored is what everyone who may see the video is shown next. */
  lemma StoredLikesAreShown(s: Sys, id: Id, count: nat, user: Id, t: int)
    ensures var s' := SyncLikes(s, id, count);
            && s'.rows == (if id in s.rows then s.rows[id := s.rows[id].(likes := count)] else s.rows)
            && s'.cache == s.cache - {id}
            && (Show(Get(s', id, t).1, user).Some? ==> Show(Get(s', id, t).1, user).value.likes == count)
  {
  }

  // ------------------------------------------------------------------ reads and writes interleaved

  /** A load in progress for a video; `shared` tells one started by a waiting reader from one started to
      refresh a stale record. `read` is what it has read, once it has. */
  datatype Flight = Flight(shared: bool, read: Option<Option<Row>>)

  /** The system, the loads in progress, when each cached record was written, and every content a row ever had. */
  datatype World = World(sys: Sys, flights: map<Id, Flight>, writtenAt: map<Id, int>, past: set<(Id, Row)>, clock: int)

  /** What a reader gets at once, or the kind of load it waits for. */
  datatype Outcome = Served(info: Row) | Absent | Waits(shared: bool)

  function Join(w: World, id: Id): (World, Outcome) {
    if id in w.flights then (w, Waits(w.flights[id].shared))
    else (w.(flights := w.flights[id := Flight(true, None)]), Waits(true))
  }

  function Ask(w: World, id: Id, t: int): (World, Outcome) {
    match Lookup(w.sys, id, t)
    case None => Join(w, id)
    case Some(Miss(_)) => (w, Absent)
    case Some(Hit(info, expireAt, _)) =>
      match Age(expireAt, t)
      case TooOld => Join(w, id)
      case Stale => (if id in w.flights then w else w.(flights := w.flights[id := Flight(false, None)]), Served(info))
      case Current => (w, Served(info))
  }

  /** What a reader that waited for a finished load is given: a refresh hands over no value, which the waiter
      reports as an error (None here). */
  function Delivered(shared: bool, read: Option<Row>): Option<Answer> {
    if shared then Some(AnswerFor(read)) else None
  }

  /** Rows change and records are dropped and warmed by other requests at any moment; a warm record carries a
      content read earlier, marked published. */
  datatype Event =
    | EvAsk(id: Id, t: int)
    | EvRead(id: Id)
    | EvWrite(id: Id, t: int)
    | EvFail(id: Id)
    | EvRow(id: Id, row: Option<Row>)
    | EvDrop(id: Id)
    | EvWarm(id: Id, info: Row, t: int)

  predicate Possible(w: World, ev: Event) {
    match ev
    case EvAsk(_, t) => w.clock <= t
    case EvRead(id) => id in w.flights && w.flights[id].read.None?
    case EvWrite(id, t) => id in w.flights && w.flights[id].read.Some? && w.clock <= t
    case EvFail(id) => id in w.flights
    case EvWarm(id, info, t) => w.clock <= t && (id, info) in w.past
    case _ => true
  }

  function Stamp(w: World, sys: Sys, id: Id, t: int): World {
    w.(sys := sys, writtenAt := w.writtenAt[id := t], clock := t)
  }

  function Happen(w: World, ev: Event): World
    requires Possible(w, ev)
  {
    match ev
    case EvAsk(id, t) => Ask(w, id, t).0.(clock := t)
    case EvRead(id) => w.(flights := w.flights[id := w.flights[id].(read := Some(ReadRow(w.sys, id)))])
    case EvWrite(id, t) =>
      var read := w.flights[id].read.value;
      var landed := w.(flights := w.flights - {id});
      if read.Some? && read.value.status != Published then landed.(clock := t)
      else Stamp(landed, WriteBack(w.sys, id, read, t), id, t)
    case EvFail(id) => w.(flights := w.flights - {id})
    case EvRow(id, row) =>
      if row.None? then w.(sys := w.sys.(rows := w.sys.rows - {id}))
      else w.(sys := w.sys.(rows := w.sys.rows[id := row.value]), past := w.past + {(id, row.value)})
    case EvDrop(id) => w.(sys := DropInfo(w.sys, id))
    case EvWarm(id, info, t) => Stamp(w, SetInfo(w.sys, id, info.(status := Published), t), id, t)
  }

  const DAWN := World(EMPTY, map[], map[], {}, 0)

  ghost predicate History(w: World, events: seq<Event>, end: World)
    decreases |events|
  {
    if events == [] then end == w
    else Possible(w, events[0]) && History(Happen(w, events[0]), events[1..], end)
  }

  ghost predicate Reachable(w: World) { exists events :: History(DAWN, events, w) }

  /** The row had this content at some time, but for the status. */
  ghost predicate WasReal(w: World, id: Id, info: Row) { exists status :: (id, info.(status := status)) in w.past }

  ghost predicate WorldInv(w: World) {
    && (forall id :: id in w.sys.rows ==> (id, w.sys.rows[id]) in w.past)
    && (forall id :: id in w.flights && w.flights[id].read.Some? && w.flights[id].read.value.Some? ==>
          (id, w.flights[id].read.value.value) in w.past)
    && (forall id :: id in w.sys.cache && w.sys.cache[id].Hit? ==>
          id in w.writtenAt && w.writtenAt[id] <= w.clock
            && w.sys.cache[id].expireAt == w.writtenAt[id] / 1000 + LOGICAL_TTL
          && WasReal(w, id, w.sys.cache[id].info))
  }

  lemma StillReal(w: World, w': World, id: Id, info: Row)
    requires WasReal(w, id, info) && w.past <= w'.past
    ensures WasReal(w', id, info)
  {
    var status :| (id, info.(status := status)) in w.past;
    assert (id, info.(status := status)) in w'.past;
  }

  lemma RealNow(w: World, id: Id, info: Row)
    requires (id, info) in w.past
    ensures WasReal(w, id, info) && WasReal(w, id, info.(status := Published))
  {
    assert info.(status := info.status) == info;
    assert info.(status := Published).(status := info.status) == info;
  }

  lemma EventKeepsInv(w: World, ev: Event)
    requires WorldInv(w) && Possible(w, ev)
    ensures WorldInv(Happen(w, ev))
  {
    var w' := Happen(w, ev);
    forall id | id in w'.sys.cache && w'.sys.cache[id].Hit?
      ensures id in w'.writtenAt && w'.writtenAt[id] <= w'.clock
              && w'.sys.cache[id].expireAt == w'.writtenAt[id] / 1000 + LOGICAL_TTL
      ensures WasReal(w', id, w'.sys.cache[id].info)
    {
      if ev.EvWrite? && id == ev.id && w.flights[id].read.value.Some?
        && w.flights[id].read.value.value.status == Published
      {
        RealNow(w', id, w.flights[id].read.value.value);
      } else if ev.EvWarm? && id == ev.id {
        RealNow(w', id, ev.info);
      } else {
        assert id in w.sys.cache && w.sys.cache[id] == w'.sys.cache[id];
        StillReal(w, w', id, w.sys.cache[id].info);
      }
    }
  }

  lemma {:induction false} HistoryKeepsInv(w: World, events: seq<Event>, end: World)
    requires WorldInv(w) && History(w, events, end)
    ensures WorldInv(end)
    decreases |events|
  {
    if events != [] {
      EventKeepsInv(w, events[0]);
      HistoryKeepsInv(Happen(w, events[0]), events[1..], end);
    }
  }

  /** However row reads, cache writes, drops and row changes interleave, a reader is never served a record
      written more than 300 + 1200 seconds ago, and what it is served is a content the row really had. */
  lemma ServedRecordsAreRecentAndReal(w: World, id: Id, t: int)
    requires Reachable(w) && w.clock <= t && Ask(w, id, t).1.Served?
    ensures id in w.writtenAt && t / 1000 - w.writtenAt[id] / 1000 <= LOGICAL_TTL + MAX_STALE
    ensures WasReal(w, id, Ask(w, id, t).1.info)
  {
    var events :| History(DAWN, events, w);
    HistoryKeepsInv(DAWN, events, w);
  }

  // ------------------------------------------------------------------ one after another is an interleaving

  /** What a reader is told in a world of loads is what it would be told alone, except that it waits where it would
      have loaded; it waits for the load under way, or for one of its own. */
  lemma AskAgreesWithGet(w: World, id: Id, t: int)
    ensures var (after, outcome) := Ask(w, id, t);
            && after.sys == w.sys
            && match outcome
               case Served(info) =>
                 && Get(w.sys, id, t).1 == Answer(Some(info), true)
                 && (after.flights == w.flights || (id !in w.flights && after.flights == w.flights[id := Flight(false, None)]))
                 && (Get(w.sys, id, t).0 != w.sys ==> id in after.flights)
               case Absent => after == w && Get(w.sys, id, t) == (w.sys, Answer(None, false))
               case Waits(shared) =>
                 && Get(w.sys, id, t) == Load(w.sys, id, t)
                 && id in after.flights && after.flights[id].shared == shared
                 && after.flights == if id in w.flights then w.flights else w.flights[id := Flight(true, None)]
  {
  }

  /** A load that has landed, with a value or without, is over: it has changed no row, and whoever then finds nothing
      usable starts another. */
  lemma LandingEndsTheLoad(w: World, ev: Event, t: int)
    requires (ev.EvWrite? || ev.EvFail?) && Possible(w, ev)
    ensures var after := Happen(w, ev);
            && after.flights == w.flights - {ev.id} && after.sys.rows == w.sys.rows
            && (ev.EvFail? ==> after.sys == w.sys)
            && (Ask(after, ev.id, t).1.Waits? ==> Ask(after, ev.id, t).1 == Waits(true))
  {
  }

  lemma Then(w: World, ev: Event, events: seq<Event>, end: World)
    requires Possible(w, ev) && History(Happen(w, ev), events, end)
    ensures History(w, [ev] + events, end)
  {
    assert ([ev] + events)[1..] == events;
  }

  predicate SameStore(s: Sys, s': Sys) { s.rows == s'.rows && s.cache == s'.cache }

  function TimeOf(op: Op, clock: int): int {
    match op
    case OpStatus(_, _, _, _, _, _, t) => t
    case OpGet(_, t) => t
    case _ => clock
  }

  /** Every request, made while no load is under way, is a history of these events that leaves the same rows and the
      same cache. */
  lemma RequestIsAHistory(w: World, op: Op) returns (events: seq<Event>, end: World)
    requires WorldInv(w) && w.flights == map[] && w.clock <= TimeOf(op, w.clock)
    ensures History(w, events, end) && SameStore(end.sys, Apply(w.sys, op)) && end.flights == map[]
  {
    match op
    case OpNew(id, author) =>
      if id in w.sys.known {
        events, end := [], w;
      } else {
        events, end := OneEvent(w, EvRow(id, Some(Row(author, Created, 0, 0))));
      }
    case OpStatus(_, _, _, _, _, _, _) => events, end := StatusIsAHistory(w, op);
    case OpDelete(id, user) =>
      if id in w.sys.rows && w.sys.rows[id].author == user {
        events, end := TwoEvents(w, EvDrop(id), EvRow(id, None));
      } else {
        events, end := [], w;
      }
    case OpLikes(id, count) =>
      if id in w.sys.rows {
        events, end := TwoEvents(w, EvRow(id, Some(w.sys.rows[id].(likes := count))), EvDrop(id));
      } else {
        events, end := OneEvent(w, EvDrop(id));
      }
    case OpComments(id, count) =>
      if id in w.sys.rows {
        events, end := OneEvent(w, EvRow(id, Some(w.sys.rows[id].(comments := count))));
      } else {
        events, end := [], w;
      }
    case OpGet(id, t) => events, end := GetIsAHistory(w, id, t);
  }

  lemma OneEvent(w: World, ev: Event) returns (events: seq<Event>, end: World)
    requires Possible(w, ev)
    ensures events == [ev] && end == Happen(w, ev) && History(w, events, end)
  {
    events, end := [ev] + [], Happen(w, ev);
    Then(w, ev, [], end);
  }

  lemma TwoEvents(w: World, a: Event, b: Event) returns (events: seq<Event>, end: World)
    requires Possible(w, a) && Possible(Happen(w, a), b)
    ensures end == Happen(Happen(w, a), b) && History(w, events, end)
  {
    var rest;
    rest, end := OneEvent(Happen(w, a), b);
    events := [a] + rest;
    Then(w, a, rest, end);
  }

  lemma StatusIsAHistory(w: World, op: Op) returns (events: seq<Event>, end: World)
    requires op.OpStatus? && w.flights == map[] && w.clock <= op.t
    ensures History(w, events, end) && SameStore(end.sys, Apply(w.sys, op)) && end.flights == map[]
  {
    var s' := Apply(w.sys, op);
    OnlyTheAuthorMovesTowardsTheTarget(w.sys, op.id, op.user, op.target, op.playSize, op.coverSize, op.uploads, op.t);
    if s'.rows == w.sys.rows {
      events, end := [], w;
    } else {
      var id, row := op.id, s'.rows[op.id];
      assert s'.rows == w.sys.rows[id := row];
      if op.target == Published {
        var moved := Happen(w, EvRow(id, Some(row)));
        var rest;
        rest, end := TwoEvents(moved, EvDrop(id), EvWarm(id, row, op.t));
        assert row.(status := Published) == row;
        assert w.sys.cache - {id} + map[id := Hit(row, op.t / 1000 + 300, op.t + 24 * 60 * 60 * 1000)]
               == w.sys.cache[id := Hit(row, op.t / 1000 + 300, op.t + 24 * 60 * 60 * 1000)];
        events := [EvRow(id, Some(row))] + rest;
        Then(w, EvRow(id, Some(row)), rest, end);
      } else {
        events, end := TwoEvents(w, EvRow(id, Some(row)), EvDrop(id));
      }
    }
  }

  lemma GetIsAHistory(w: World, id: Id, t: int) returns (events: seq<Event>, end: World)
    requires w.flights == map[] && w.clock <= t
    ensures History(w, events, end) && SameStore(end.sys, Get(w.sys, id, t).0) && end.flights == map[]
  {
    var asked := Happen(w, EvAsk(id, t));
    if id in asked.flights {
      var rest;
      rest, end := TwoEvents(asked, EvRead(id), EvWrite(id, t));
      events := [EvAsk(id, t)] + rest;
      Then(w, EvAsk(id, t), rest, end);
    } else {
      events, end := OneEvent(w, EvAsk(id, t));
    }
  }

  // ------------------------------------------------------------------ the logic

  class Logic {
    var rows: map<Id, Row>
    var cache: map<Id, Record>
    ghost var known: set<Id>

    ghost function View(): Sys
      reads this
    {
      Sys(rows, cache, known)
    }

    constructor ()
      ensures View() == EMPTY
    {
      rows, cache, known := map[], map[], {};
    }

    /** A conditional update: whether a row was changed. */
    method MarkStatus(id: Id, user: Id, move: Move) returns (migrated: bool)
      modifies this`rows
      ensures migrated <==> id in old(rows) && old(rows)[id].author == user && old(rows)[id].status == move.from
      ensures rows == if migrated then old(rows)[id := old(rows)[id].(status := move.to)] else old(rows)
    {
      migrated := id in rows && rows[id].author == user && rows[id].status == move.from;
      if migrated {
        rows := rows[id := rows[id].(status := move.to)];
      }
    }

    method RefreshInfoCache(id: Id, item: Row, status: Status, t: int)
      modifies this`cache
      ensures View() == var dropped := DropInfo(old(View()), id);
                        if status == Published then SetInfo(dropped, id, item.(status := status), t) else dropped
    {
      cache := cache - {id};
      if status != Published {
        return;
      }
      cache := cache[id := Hit(item.(status := status), t / 1000 + LOGICAL_TTL, t + PHYSICAL_TTL)];
    }

    method TransitionStatus(id: Id, user: Id, move: Move, t: int) returns (err: Option<Error>, migrated: bool)
      modifies this
      ensures (View(), err, migrated) == Transition(old(View()), id, user, move, t)
      ensures OnlyStatusOf(old(rows), rows, id)
      ensures migrated <==> err.None? && old(rows)[id].status == move.from
      ensures migrated ==> old(rows)[id].author == user && rows[id].status == move.to
      ensures !migrated ==> View() == old(View())
      ensures err == if id !in old(rows) then Some(NotFound) else if old(rows)[id].author != user then Some(Forbidden) else None
    {
      if id !in rows {
        return Some(NotFound), false;
      }
      var item := rows[id];
      if item.author != user {
        return Some(Forbidden), false;
      }
      migrated := MarkStatus(id, user, move);
      if migrated {
        RefreshInfoCache(id, item, move.to, t);
      }
      return None, migrated;
    }

    method SwitchPrivateStatus(id: Id, user: Id, toPrivate: bool, t: int) returns (err: Option<Error>, event: bool)
      modifies this
      ensures (View(), err, event) == SwitchPrivate(old(View()), id, user, toPrivate, t)
    {
      var from, to := Published, Private;
      if !toPrivate {
        from, to := Private, Published;
      }
      var migrated;
      err, migrated := TransitionStatus(id, user, Move(from, to), t);
      if err.Some? || migrated {
        return err, migrated;
      }
      if rows[id].status == to {
        return None, false;
      }
      return Some(BadRequest), false;
    }

    method PublishVideo(id: Id, user: Id, playSize: Option<int>, coverSize: Option<int>, t: int) returns (err: Option<Error>, event: bool)
      modifies this
      ensures (View(), err, event) == PublishFirst(old(View()), id, user, playSize, coverSize, t)
      ensures id !in old(rows) <==> err == Some(NotFound)
      ensures id in old(rows) && old(rows)[id].author != user <==> err == Some(Forbidden)
      ensures event <==> err.None? && old(rows)[id].status == Created
      ensures !event ==> View() == old(View())
    {
      if id !in rows {
        return Some(NotFound), false;
      }
      if rows[id].author != user {
        return Some(Forbidden), false;
      }
      if playSize.None? || playSize.value <= 0 || playSize.value > VIDEO_MAX {
        return Some(BadRequest), false;
      }
      if coverSize.None? || coverSize.value > COVER_MAX {
        return Some(BadRequest), false;
      }
      err, event := TransitionStatus(id, user, Move(Created, Published), t);
    }

    /** `event` says whether VideoCreated or VideoPrivateSwitched goes out. */
    method ChangeStatus(id: Id, user: Id, target: Status, playSize: Option<int>, coverSize: Option<int>, uploads: bool, t: int)
      returns (err: Option<Error>, event: bool)
      modifies this
      ensures (View(), err, event) == UpdateStatus(old(View()), id, user, target, playSize, coverSize, uploads, t)
      ensures OnlyStatusOf(old(rows), rows, id)
      ensures rows != old(rows) ==> old(rows)[id].author == user && rows[id].status == target
    {
      OnlyTheAuthorMovesTowardsTheTarget(View(), id, user, target, playSize, coverSize, uploads, t);
      match target
      case Published =>
        if id !in rows {
          return Some(NotFound), false;
        }
        if rows[id].author != user {
          return Some(Forbidden), false;
        }
        if rows[id].status == Private {
          err, event := SwitchPrivateStatus(id, user, false, t);
        } else {
          err, event := PublishVideo(id, user, playSize, coverSize, t);
        }
      case Private =>
        err, event := SwitchPrivateStatus(id, user, true, t);
      case Failed =>
        var migrated;
        err, migrated := TransitionStatus(id, user, Move(Created, Failed), t);
        event := false;
      case Created =>
        if !uploads {
          return Some(Internal), false;
        }
        var migrated;
        err, migrated := TransitionStatus(id, user, Move(Failed, Created), t);
        event := false;
    }

    method Delete(id: Id, user: Id) returns (err: Option<Error>, aftermath: Aftermath)
      modifies this
      ensures (View(), err, aftermath) == DeleteVideo(old(View()), id, user)
    {
      if id !in rows {
        return Some(NotFound), Nothing;
      }
      var item := rows[id];
      if item.author != user {
        return Some(Forbidden), Nothing;
      }
      cache := cache - {id};
      rows := rows - {id};
      if item.status == Created || item.status == Failed {
        return None, ObjectsRemoved;
      }
      return None, Announced;
    }

    method HandleLikeSwitched(id: Id, count: nat)
      modifies this
      ensures View() == SyncLikes(old(View()), id, count)
    {
      if id in rows {
        rows := rows[id := rows[id].(likes := count)];
      }
      cache := cache - {id};
    }

    method LoadInfo(id: Id, t: int) returns (answer: Answer)
      modifies this`cache
      ensures (View(), answer) == Load(old(View()), id, t)
    {
      if id !in rows {
        cache := cache[id := Miss(t + MISS_TTL)];
        return Answer(None, false);
      }
      var item := rows[id];
      if item.status == Private {
        return Answer(Some(item), false);
      }
      if item.status != Published {
        return Answer(None, false);
      }
      cache := cache[id := Hit(item, t / 1000 + LOGICAL_TTL, t + PHYSICAL_TTL)];
      return Answer(Some(item), true);
    }

    method GetInfoWithCache(id: Id, t: int) returns (answer: Answer)
      modifies this`cache
      ensures (View(), answer) == Get(old(View()), id, t)
    {
      if id !in cache || t >= cache[id].evictAt {
        answer := LoadInfo(id, t);
        return;
      }
      var record := cache[id];
      if record.Miss? {
        return Answer(None, false);
      }
      var now := t / 1000;
      if record.expireAt <= now {
        if now - record.expireAt > MAX_STALE {
          answer := LoadInfo(id, t);
          return;
        }
        var refreshed := LoadInfo(id, t);
      }
      return Answer(Some(record.info), true);
    }
  }
}
