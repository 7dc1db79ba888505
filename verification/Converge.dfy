/** Counters kept by recomputing: a request changes a Redis set and then publishes an event; a consumer of the
    event reads the set's size and overwrites the stored count. Events may be delivered any number of times
    and in any order, handlers of one counter may overlap, and publications may fail. */
module Converge {
  import opened Text
  import opened Consumer

  /** A stored count and the set it should equal: likes of a video or comment, whom a user follows, and who
      follows a user. */
  datatype Counter = VideoLikes(id: Id) | CommentLikes(id: Id) | Following(id: Id) | Followers(id: Id)

  datatype Request =
    | LikeVideo(video: Id, user: Id, active: bool)
    | LikeComment(comment: Id, user: Id, active: bool)
    | FollowUser(follower: Id, following: Id, active: bool)

  /** An event, as the counters its handlers recompute, in order. */
  type Event = seq<Counter>

  function EventOf(req: Request): Event {
    match req
    case LikeVideo(video, _, _) => [VideoLikes(video)]
    case LikeComment(comment, _, _) => [CommentLikes(comment)]
    case FollowUser(a, b, _) => [Following(a), Followers(b)]
  }

  /** The sets of all counters together: who is in which. */
  type Pair = (Counter, Id)

  function Members(sets: set<Pair>, k: Counter): set<Id> {
    set p | p in sets && p.0 == k :: p.1
  }

  /** The membership a request is about, and all it writes: following goes into two sets. */
  function Head(req: Request): Pair {
    match req
    case LikeVideo(video, user, _) => (VideoLikes(video), user)
    case LikeComment(comment, user, _) => (CommentLikes(comment), user)
    case FollowUser(a, b, _) => (Following(a), b)
  }

  function Touch(req: Request): set<Pair> {
    match req
    case FollowUser(a, b, _) => {(Following(a), b), (Followers(b), a)}
    case _ => {Head(req)}
  }

  /** The set scripts: look at one membership, and write only when it differs from the one wanted. */
  function SetTo(sets: set<Pair>, req: Request): (set<Pair>, bool) {
    if (Head(req) in sets) == req.active then (sets, false)
    else (if req.active then sets + Touch(req) else sets - Touch(req), true)
  }

  function Undoing(req: Request): Request { req.(active := !req.active) }

  // ------------------------------------------------------------------ runs

  /** A handler at work: for each counter of its event a read, then a write. `stamp` numbers its last read. */
  datatype Worker = Worker(event: Event, pc: nat, value: nat, stamp: nat)

  /** A request between its change of the set and its publication. It is open as long as nobody has read any of
      its counters and no other request has changed the same membership. */
  datatype Unsent = Unsent(req: Request, open: bool)

  /** `tick` numbers the reads. The rest is bookkeeping: `base` is the sets without the open requests' changes,
      `changed` the time a counter's part of it last changed, `origin` the read a stored count comes from. */
  datatype State = State(
    sets: set<Pair>,
    stored: map<Counter, nat>,
    unsent: map<nat, Unsent>,
    queue: multiset<Event>,
    workers: map<nat, Worker>,
    tick: nat,
    base: set<Pair>,
    changed: map<Counter, nat>,
    origin: map<Counter, nat>)

  datatype Step =
    | Set(n: nat, req: Request)
    | Publish(n: nat)
    | RollBack(n: nat)
    | Deliver(event: Event)
    | Take(n: nat, event: Event)
    | Work(n: nat)
    | End(n: nat, result: HandlerResult, archiveOk: bool)

  /** Handlers turn away an event without IDs before they touch anything. */
  predicate WellFormed(event: Event) { event != [] && forall k :: k in event ==> k.id != 0 }

  /** Deliver adds a message the queue may deliver: a duplicate, a redelivery, or anything else. */
  predicate Enabled(s: State, step: Step) {
    match step
    case Set(n, req) => n !in s.unsent && WellFormed(EventOf(req))
    case Publish(n) => n in s.unsent
    case RollBack(n) => n in s.unsent
    case Deliver(_) => true
    case Take(n, event) => n !in s.workers && event in s.queue
    case Work(n) => n in s.workers && WellFormed(s.workers[n].event) && s.workers[n].pc < 2 * |s.workers[n].event|
    case End(n, result, _) =>
      && n in s.workers
      && (result == Success ==> WellFormed(s.workers[n].event) && s.workers[n].pc == 2 * |s.workers[n].event|)
      && (result == Permanent ==> !WellFormed(s.workers[n].event))
  }

  predicate Storing(s: State, step: Step) {
    step.Work? && Enabled(s, step) && s.workers[step.n].pc % 2 == 1
  }

  function CounterAt(w: Worker): Counter
    requires w.pc < 2 * |w.event|
  {
    w.event[w.pc / 2]
  }

  /** The two provisos: counts are stored in the order in which they were read, and only an open request is
      rolled back. */
  predicate InOrder(s: State, step: Step) {
    Storing(s, step) ==> s.workers[step.n].stamp >= StoredAt(s, CounterAt(s.workers[step.n]))
  }

  predicate Unseen(s: State, step: Step) { step.RollBack? ==> step.n in s.unsent && s.unsent[step.n].open }

  function Count(s: State, k: Counter): nat { |Members(s.sets, k)| }

  function Stored(s: State, k: Counter): nat { if k in s.stored then s.stored[k] else 0 }

  /** What the open ones among these requests have written. */
  function OpenPairs(s: State, c: set<nat>): set<Pair> {
    set n, p | n in c && n in s.unsent && s.unsent[n].open && p in Touch(s.unsent[n].req) :: p
  }

  function Flip(a: set<Pair>, b: set<Pair>): set<Pair> { (a - b) + (b - a) }

  function Stamped(times: map<Counter, nat>, counters: set<Counter>, tick: nat): map<Counter, nat> {
    map k | k in times.Keys + counters :: if k in counters then tick else times[k]
  }

  function ChangedAt(s: State, k: Counter): nat { if k in s.changed then s.changed[k] else 0 }

  function StoredAt(s: State, k: Counter): nat { if k in s.origin then s.origin[k] else 1 }

  /** These requests are open no more: what they wrote counts as changed now. */
  function Close(s: State, c: set<nat>): State {
    var pairs := OpenPairs(s, c);
    s.(base := Flip(s.base, pairs),
       changed := Stamped(s.changed, set p | p in pairs :: p.0, s.tick),
       unsent := map n | n in s.unsent :: if n in c then s.unsent[n].(open := false) else s.unsent[n])
  }

  /** Those about the same membership, and those about a counter. */
  function Rivals(s: State, req: Request): set<nat> {
    set n | n in s.unsent && Touch(s.unsent[n].req) == Touch(req)
  }

  function About(s: State, k: Counter): set<nat> {
    set n | n in s.unsent && k in EventOf(s.unsent[n].req)
  }

  /** The handler has now read this value. */
  function Reading(s: State, n: nat, value: nat): State
    requires n in s.workers
  {
    s.(workers := s.workers[n := Worker(s.workers[n].event, s.workers[n].pc + 1, value, s.tick + 1)], tick := s.tick + 1)
  }

  function DoWork(s: State, n: nat): State
    requires n in s.workers && s.workers[n].pc < 2 * |s.workers[n].event|
  {
    var w := s.workers[n];
    var k := CounterAt(w);
    if w.pc % 2 == 0 then Reading(Close(s, About(s, k)), n, Count(s, k))
    else
      s.(stored := s.stored[k := w.value],
         origin := s.origin[k := w.stamp],
         workers := s.workers[n := w.(pc := w.pc + 1)])
  }

  function Apply(s: State, step: Step): State
    requires Enabled(s, step)
  {
    match step
    case Set(n, req) =>
      var (sets, changed) := SetTo(s.sets, req);
      if !changed then s
      else
        var closed := Close(s, Rivals(s, req));
        closed.(sets := sets, unsent := closed.unsent[n := Unsent(req, true)])
    case Publish(n) =>
      var closed := Close(s, {n});
      closed.(unsent := closed.unsent - {n}, queue := s.queue + multiset{EventOf(s.unsent[n].req)})
    case RollBack(n) => s.(sets := SetTo(s.sets, Undoing(s.unsent[n].req)).0, unsent := s.unsent - {n})
    case Deliver(event) => s.(queue := s.queue + multiset{event})
    case Take(n, event) => s.(queue := s.queue - multiset{event}, workers := s.workers[n := Worker(event, 0, 0, 0)])
    case Work(n) => DoWork(s, n)
    case End(n, result, archiveOk) =>
      if Dispatch(true, result, archiveOk).0 == Ack then s.(workers := s.workers - {n})
      else s.(workers := s.workers - {n}, queue := s.queue + multiset{s.workers[n].event})
  }

  const START := State({}, map[], map[], multiset{}, map[], 1, {}, map[], map[])

  ghost predicate Run(s: State, steps: seq<Step>, end: State)
    decreases |steps|
  {
    if steps == [] then end == s
    else
      && Enabled(s, steps[0]) && InOrder(s, steps[0]) && Unseen(s, steps[0])
      && Run(Apply(s, steps[0]), steps[1..], end)
  }

  ghost predicate Reachable(s: State) { exists steps :: Run(START, steps, s) }

  // ------------------------------------------------------------------ the sets and the open requests

  lemma TouchesOfOne(a: Request, b: Request)
    ensures Touch(a) == Touch(b) || Touch(a) !! Touch(b)
  {
  }

  lemma EventNames(req: Request, k: Counter)
    ensures k in EventOf(req) <==> exists p :: p in Touch(req) && p.0 == k
  {
    if k in EventOf(req) {
      match req
      case FollowUser(a, b, _) => assert (Following(a), b) in Touch(req) && (Followers(b), a) in Touch(req);
      case _ => assert Head(req) in Touch(req);
    }
  }

  /** The two sides of following agree. */
  ghost predicate Whole(sets: set<Pair>) {
    forall req, p :: p in Touch(req) ==> (p in sets <==> Head(req) in sets)
  }

  ghost predicate OpenTouches(s: State, p: Pair) {
    exists n :: n in s.unsent && s.unsent[n].open && p in Touch(s.unsent[n].req)
  }

  ghost predicate OpenStands(s: State) {
    forall n, p :: n in s.unsent && s.unsent[n].open && p in Touch(s.unsent[n].req) ==>
      (p in s.sets <==> s.unsent[n].req.active)
  }

  ghost predicate OpenApart(s: State) {
    forall n, m :: n in s.unsent && s.unsent[n].open && m in s.unsent && s.unsent[m].open && n != m ==>
      Touch(s.unsent[n].req) !! Touch(s.unsent[m].req)
  }

  /** The base is the sets with the open changes taken back. */
  ghost predicate BaseHolds(s: State) {
    forall p :: p in s.sets <==> (p in s.base) != OpenTouches(s, p)
  }

  ghost predicate SetsFit(s: State) {
    && Whole(s.sets) && OpenStands(s) && OpenApart(s) && BaseHolds(s)
    && forall n :: n in s.unsent ==> WellFormed(EventOf(s.unsent[n].req))
  }

  lemma CloseFits(s: State, c: set<nat>)
    requires SetsFit(s)
    ensures SetsFit(Close(s, c))
    ensures forall p :: OpenTouches(Close(s, c), p) <==> OpenTouches(s, p) && p !in OpenPairs(s, c)
  {
    var s' := Close(s, c);
    forall p ensures OpenTouches(s', p) <==> OpenTouches(s, p) && p !in OpenPairs(s, c) {
      if OpenTouches(s, p) && p !in OpenPairs(s, c) {
        var n :| n in s.unsent && s.unsent[n].open && p in Touch(s.unsent[n].req);
        assert n !in c;
        assert n in s'.unsent && s'.unsent[n].open && p in Touch(s'.unsent[n].req);
      }
    }
    forall p ensures p in s'.sets <==> (p in s'.base) != OpenTouches(s', p) {
      assert p in OpenPairs(s, c) ==> OpenTouches(s, p);
    }
  }

  lemma SetFits(s: State, n: nat, req: Request)
    requires SetsFit(s) && Enabled(s, Set(n, req))
    ensures SetsFit(Apply(s, Set(n, req)))
  {
    if SetTo(s.sets, req).1 {
      var closed := Close(s, Rivals(s, req));
      CloseFits(s, Rivals(s, req));
      forall p | p in Touch(req) ensures !OpenTouches(closed, p) { RivalsClosed(s, req, p); }
      WriteFits(closed, n, req);
    }
  }

  lemma RivalsClosed(s: State, req: Request, p: Pair)
    requires p in Touch(req)
    ensures !OpenTouches(Close(s, Rivals(s, req)), p)
  {
    forall n | n in s.unsent && p in Touch(s.unsent[n].req) ensures n in Rivals(s, req) {
      TouchesOfOne(s.unsent[n].req, req);
    }
  }

  lemma WriteFits(s: State, n: nat, req: Request)
    requires SetsFit(s) && n !in s.unsent && WellFormed(EventOf(req)) && SetTo(s.sets, req).1
    requires forall p :: p in Touch(req) ==> !OpenTouches(s, p)
    ensures SetsFit(s.(sets := SetTo(s.sets, req).0, unsent := s.unsent[n := Unsent(req, true)]))
  {
    var s' := s.(sets := SetTo(s.sets, req).0, unsent := s.unsent[n := Unsent(req, true)]);
    WriteWhole(s.sets, req);
    assert OpenStands(s') && OpenApart(s') by { WriteStands(s, n, req, s'); }
    WriteBase(s, n, req, s');
  }

  lemma WriteStands(s: State, n: nat, req: Request, s': State)
    requires Whole(s.sets) && OpenStands(s) && OpenApart(s) && n !in s.unsent && SetTo(s.sets, req).1
    requires forall p :: p in Touch(req) ==> !OpenTouches(s, p)
    requires s'.sets == SetTo(s.sets, req).0 && s'.unsent == s.unsent[n := Unsent(req, true)]
    ensures OpenStands(s') && OpenApart(s')
  {
    OthersApart(s, req);
    forall p | p in Touch(req) ensures p in s'.sets <==> req.active {
      assert p in s.sets <==> Head(req) in s.sets;
    }
  }

  lemma WriteBase(s: State, n: nat, req: Request, s': State)
    requires Whole(s.sets) && BaseHolds(s) && n !in s.unsent && SetTo(s.sets, req).1
    requires forall p :: p in Touch(req) ==> !OpenTouches(s, p)
    requires s'.sets == SetTo(s.sets, req).0 && s'.base == s.base && s'.unsent == s.unsent[n := Unsent(req, true)]
    ensures BaseHolds(s')
  {
    NewTouches(s, n, req, s');
    forall p ensures p in s'.sets <==> (p in s'.base) != OpenTouches(s', p) {
      assert p in Touch(req) ==> (p in s.sets <==> Head(req) in s.sets);
    }
  }

  lemma OthersApart(s: State, req: Request)
    requires forall p :: p in Touch(req) ==> !OpenTouches(s, p)
    ensures forall m :: m in s.unsent && s.unsent[m].open ==> Touch(s.unsent[m].req) !! Touch(req)
  {
    forall m | m in s.unsent && s.unsent[m].open ensures Touch(s.unsent[m].req) !! Touch(req) {
      forall p | p in Touch(req) ensures p !in Touch(s.unsent[m].req) { assert !OpenTouches(s, p); }
    }
  }

  lemma NewTouches(s: State, n: nat, req: Request, s': State)
    requires n !in s.unsent && s'.unsent == s.unsent[n := Unsent(req, true)]
    ensures forall p :: OpenTouches(s', p) <==> OpenTouches(s, p) || p in Touch(req)
  {
    forall p ensures OpenTouches(s', p) <==> OpenTouches(s, p) || p in Touch(req) {
      if OpenTouches(s, p) {
        var m :| m in s.unsent && s.unsent[m].open && p in Touch(s.unsent[m].req);
        assert m in s'.unsent && s'.unsent[m] == s.unsent[m];
      }
      if p in Touch(req) { assert n in s'.unsent && s'.unsent[n].open && p in Touch(s'.unsent[n].req); }
    }
  }

  lemma WriteWhole(sets: set<Pair>, req: Request)
    requires Whole(sets)
    ensures Whole(SetTo(sets, req).0)
  {
    var after := SetTo(sets, req).0;
    forall other: Request, p | p in Touch(other) ensures p in after <==> Head(other) in after {
      TouchesOfOne(other, req);
      assert Head(other) in Touch(other) && (p in sets <==> Head(other) in sets);
    }
  }

  lemma RollBackFits(s: State, n: nat)
    requires SetsFit(s) && n in s.unsent && s.unsent[n].open
    ensures SetsFit(Apply(s, RollBack(n)))
  {
    var s', req := Apply(s, RollBack(n)), s.unsent[n].req;
    assert Touch(Undoing(req)) == Touch(req) && Head(Undoing(req)) == Head(req) && Head(req) in Touch(req);
    WriteWhole(s.sets, Undoing(req));
    forall m, p | m in s'.unsent && s'.unsent[m].open && p in Touch(s'.unsent[m].req)
      ensures p in s'.sets <==> s'.unsent[m].req.active
    {
      assert m != n && p !in Touch(req);
    }
    OneLessTouches(s, n, s');
    forall p ensures p in s'.sets <==> (p in s'.base) != OpenTouches(s', p) {
      if p in Touch(req) { assert OpenTouches(s, p) && (p in s.sets <==> req.active); }
    }
  }

  lemma OneLessTouches(s: State, n: nat, s': State)
    requires OpenApart(s) && n in s.unsent && s.unsent[n].open && s'.unsent == s.unsent - {n}
    ensures forall p :: OpenTouches(s', p) <==> OpenTouches(s, p) && p !in Touch(s.unsent[n].req)
  {
    forall p ensures OpenTouches(s', p) <==> OpenTouches(s, p) && p !in Touch(s.unsent[n].req) {
      if OpenTouches(s, p) && p !in Touch(s.unsent[n].req) {
        var m :| m in s.unsent && s.unsent[m].open && p in Touch(s.unsent[m].req);
        assert m in s'.unsent && s'.unsent[m] == s.unsent[m];
      }
    }
  }

  lemma FewerFit(s: State, s': State)
    requires SetsFit(s) && s'.sets == s.sets && s'.base == s.base
    requires forall n :: n in s'.unsent ==> n in s.unsent && s'.unsent[n] == s.unsent[n]
    requires forall n :: n in s.unsent && s.unsent[n].open ==> n in s'.unsent
    ensures SetsFit(s')
  {
    forall p ensures OpenTouches(s', p) <==> OpenTouches(s, p) {
      if OpenTouches(s, p) {
        var n :| n in s.unsent && s.unsent[n].open && p in Touch(s.unsent[n].req);
        assert n in s'.unsent && s'.unsent[n] == s.unsent[n];
      }
    }
  }

  lemma StepFits(s: State, step: Step)
    requires SetsFit(s) && Enabled(s, step) && Unseen(s, step)
    ensures SetsFit(Apply(s, step))
  {
    var s' := Apply(s, step);
    match step
    case Set(n, req) => SetFits(s, n, req);
    case RollBack(n) => RollBackFits(s, n);
    case Publish(n) =>
      CloseFits(s, {n});
      FewerFit(Close(s, {n}), s');
    case Work(n) =>
      var k := CounterAt(s.workers[n]);
      CloseFits(s, About(s, k));
      FewerFit(if s.workers[n].pc % 2 == 0 then Close(s, About(s, k)) else s, s');
    case Deliver(_) => FewerFit(s, s');
    case Take(_, _) => FewerFit(s, s');
    case End(_, _, _) => FewerFit(s, s');
  }

  // ------------------------------------------------------------------ what is fresh and what is due

  predicate Fresh(s: State, k: Counter, stamp: nat) { stamp > ChangedAt(s, k) }

  ghost predicate Timely(s: State) {
    && (forall k :: ChangedAt(s, k) <= s.tick && StoredAt(s, k) <= s.tick)
    && (forall n :: n in s.workers ==> s.workers[n].stamp <= s.tick)
  }

  predicate Holds(s: State, n: nat, i: nat, k: Counter) {
    n in s.workers && i < |s.workers[n].event| && s.workers[n].event[i] == k && s.workers[n].pc == 2 * i + 1
  }

  /** Fresh counts, stored or about to be, are right for the base. */
  ghost predicate FreshIsRight(s: State, k: Counter) {
    && (Fresh(s, k, StoredAt(s, k)) ==> Stored(s, k) == |Members(s.base, k)|)
    && (forall n, i :: Holds(s, n, i, k) && Fresh(s, k, s.workers[n].stamp) ==> s.workers[n].value == |Members(s.base, k)|)
  }

  predicate Mentions(event: Event, k: Counter) { WellFormed(event) && k in event }

  /** An event about k is waiting to be handled, or certain to be sent. */
  ghost predicate Noticed(s: State, k: Counter) {
    || (exists e :: e in s.queue && Mentions(e, k))
    || (exists n :: n in s.unsent && !s.unsent[n].open && Mentions(EventOf(s.unsent[n].req), k))
  }

  /** A handler is still to read k, or has a fresh count of it to store. */
  ghost predicate Due(s: State, n: nat, i: nat, k: Counter) {
    && n in s.workers && WellFormed(s.workers[n].event) && i < |s.workers[n].event| && s.workers[n].event[i] == k
    && (s.workers[n].pc <= 2 * i || (s.workers[n].pc == 2 * i + 1 && Fresh(s, k, s.workers[n].stamp)))
  }

  ghost predicate SomeDue(s: State, k: Counter) { exists n, i :: Due(s, n, i, k) }

  ghost predicate Covered(s: State, k: Counter) { Noticed(s, k) || Fresh(s, k, StoredAt(s, k)) || SomeDue(s, k) }

  ghost predicate Right(s: State, k: Counter) { FreshIsRight(s, k) && Covered(s, k) }

  ghost predicate Inv(s: State) { SetsFit(s) && Timely(s) && forall k :: Right(s, k) }

  /** s' differs from s in nothing that matters to what is fresh, stored and due of k. */
  ghost predicate SameCounts(s: State, s': State, k: Counter) {
    && s'.workers == s.workers && ChangedAt(s', k) == ChangedAt(s, k) && StoredAt(s', k) == StoredAt(s, k)
    && Stored(s', k) == Stored(s, k) && Members(s'.base, k) == Members(s.base, k)
  }

  lemma SameCountsRight(s: State, s': State, k: Counter)
    requires Right(s, k) && SameCounts(s, s', k) && (Noticed(s, k) ==> Noticed(s', k))
    ensures Right(s', k)
  {
    forall n, i | Holds(s', n, i, k) && Fresh(s', k, s'.workers[n].stamp)
      ensures s'.workers[n].value == |Members(s'.base, k)|
    {
      assert Holds(s, n, i, k);
    }
    if SomeDue(s, k) {
      var n, i :| Due(s, n, i, k);
      assert Due(s', n, i, k);
    }
  }

  lemma CloseRight(s: State, c: set<nat>, k: Counter)
    requires SetsFit(s) && Timely(s) && Right(s, k)
    ensures Right(Close(s, c), k)
  {
    var s' := Close(s, c);
    if exists p :: p in OpenPairs(s, c) && p.0 == k {
      CloseNoticed(s, c, k);
      forall n, i | Holds(s', n, i, k) ensures !Fresh(s', k, s'.workers[n].stamp) { assert Holds(s, n, i, k); }
    } else {
      CloseElsewhere(s, c, k);
      CloseKeepsNotice(s, c, k);
      SameCountsRight(s, s', k);
    }
  }

  lemma CloseNoticed(s: State, c: set<nat>, k: Counter)
    requires SetsFit(s) && exists p :: p in OpenPairs(s, c) && p.0 == k
    ensures Noticed(Close(s, c), k)
  {
    var p :| p in OpenPairs(s, c) && p.0 == k;
    var n :| n in c && n in s.unsent && s.unsent[n].open && p in Touch(s.unsent[n].req);
    EventNames(s.unsent[n].req, k);
    var s' := Close(s, c);
    assert n in s'.unsent && !s'.unsent[n].open && Mentions(EventOf(s'.unsent[n].req), k);
  }

  lemma CloseElsewhere(s: State, c: set<nat>, k: Counter)
    requires forall p :: p in OpenPairs(s, c) ==> p.0 != k
    ensures ChangedAt(Close(s, c), k) == ChangedAt(s, k) && Members(Close(s, c).base, k) == Members(s.base, k)
  {
    var s' := Close(s, c);
    forall p: Pair | p.0 == k ensures p in s'.base <==> p in s.base {}
    SameMembers(s'.base, s.base, k);
  }

  lemma SameMembers(a: set<Pair>, b: set<Pair>, k: Counter)
    requires forall p: Pair :: p.0 == k ==> (p in a <==> p in b)
    ensures Members(a, k) == Members(b, k)
  {
    forall u | u in Members(a, k) ensures u in Members(b, k) {
      var p :| p in a && p.0 == k && p.1 == u;
      assert p in b;
    }
    forall u | u in Members(b, k) ensures u in Members(a, k) {
      var p :| p in b && p.0 == k && p.1 == u;
      assert p in a;
    }
  }

  lemma CloseKeepsNotice(s: State, c: set<nat>, k: Counter)
    ensures Noticed(s, k) ==> Noticed(Close(s, c), k)
  {
    var s' := Close(s, c);
    if n :| n in s.unsent && !s.unsent[n].open && Mentions(EventOf(s.unsent[n].req), k) {
      assert n in s'.unsent && !s'.unsent[n].open && s'.unsent[n].req == s.unsent[n].req;
    }
  }

  lemma SetRight(s: State, n: nat, req: Request, k: Counter)
    requires SetsFit(s) && Timely(s) && Right(s, k) && Enabled(s, Set(n, req))
    ensures Right(Apply(s, Set(n, req)), k)
  {
    var s' := Apply(s, Set(n, req));
    if SetTo(s.sets, req).1 {
      var closed := Close(s, Rivals(s, req));
      CloseRight(s, Rivals(s, req), k);
      if m :| m in closed.unsent && !closed.unsent[m].open && Mentions(EventOf(closed.unsent[m].req), k) {
        assert m in s'.unsent && s'.unsent[m] == closed.unsent[m];
      }
      SameCountsRight(closed, s', k);
    }
  }

  lemma PublishRight(s: State, n: nat, k: Counter)
    requires SetsFit(s) && Timely(s) && Right(s, k) && Enabled(s, Publish(n))
    ensures Right(Apply(s, Publish(n)), k)
  {
    var s', closed, event := Apply(s, Publish(n)), Close(s, {n}), EventOf(s.unsent[n].req);
    CloseRight(s, {n}, k);
    assert event in s'.queue;
    if m :| m in closed.unsent && !closed.unsent[m].open && Mentions(EventOf(closed.unsent[m].req), k) {
      if m == n {
        assert Mentions(event, k);
      } else {
        assert m in s'.unsent && s'.unsent[m] == closed.unsent[m];
      }
    }
    SameCountsRight(closed, s', k);
  }

  lemma RollBackRight(s: State, n: nat, k: Counter)
    requires Right(s, k) && n in s.unsent && s.unsent[n].open
    ensures Right(Apply(s, RollBack(n)), k)
  {
    var s' := Apply(s, RollBack(n));
    if m :| m in s.unsent && !s.unsent[m].open && Mentions(EventOf(s.unsent[m].req), k) {
      assert m in s'.unsent && s'.unsent[m] == s.unsent[m];
    }
    SameCountsRight(s, s', k);
  }

  lemma TakeRight(s: State, n: nat, event: Event, k: Counter)
    requires Right(s, k) && Enabled(s, Take(n, event))
    ensures Right(Apply(s, Take(n, event)), k)
  {
    var s' := Apply(s, Take(n, event));
    forall m, i | Holds(s', m, i, k) && Fresh(s', k, s'.workers[m].stamp)
      ensures s'.workers[m].value == |Members(s'.base, k)|
    {
      assert m != n && Holds(s, m, i, k);
    }
    if Mentions(event, k) {
      var i :| 0 <= i < |event| && event[i] == k;
      assert Due(s', n, i, k);
    } else if SomeDue(s, k) {
      var m, i :| Due(s, m, i, k);
      assert Due(s', m, i, k);
    }
  }

  lemma EndRight(s: State, step: Step, k: Counter)
    requires Right(s, k) && Enabled(s, step) && step.End?
    ensures Right(Apply(s, step), k)
  {
    assert FreshIsRight(Apply(s, step), k) by { EndKeepsFresh(s, step, k); }
    EndCovers(s, step, k);
  }

  lemma EndKeepsFresh(s: State, step: Step, k: Counter)
    requires FreshIsRight(s, k) && Enabled(s, step) && step.End?
    ensures FreshIsRight(Apply(s, step), k)
  {
    var s' := Apply(s, step);
    forall m, i | Holds(s', m, i, k) && Fresh(s', k, s'.workers[m].stamp)
      ensures s'.workers[m].value == |Members(s'.base, k)|
    {
      assert Holds(s, m, i, k);
    }
  }

  lemma EndCovers(s: State, step: Step, k: Counter)
    requires Covered(s, k) && Enabled(s, step) && step.End?
    ensures Covered(Apply(s, step), k)
  {
    var s' := Apply(s, step);
    if Noticed(s, k) {
      assert s.queue <= s'.queue && s'.unsent == s.unsent;
    } else if SomeDue(s, k) {
      var m, i :| Due(s, m, i, k);
      if m != step.n {
        assert Due(s', m, i, k);
      } else {
        assert s.workers[m].event in s'.queue && Mentions(s.workers[m].event, k);
      }
    }
  }

  lemma StoreRight(s: State, n: nat, k: Counter)
    requires Right(s, k) && Storing(s, Work(n)) && InOrder(s, Work(n))
    ensures Right(Apply(s, Work(n)), k)
  {
    var s', w := Apply(s, Work(n)), s.workers[n];
    var j := w.pc / 2;
    assert w.pc == 2 * j + 1 && Holds(s, n, j, CounterAt(w));
    forall m, i | Holds(s', m, i, k) && Fresh(s', k, s'.workers[m].stamp)
      ensures s'.workers[m].value == |Members(s'.base, k)|
    {
      assert m != n && Holds(s, m, i, k);
    }
    if SomeDue(s, k) {
      var m: nat, i: nat :| Due(s, m, i, k);
      if m != n || i > j { assert Due(s', m, i, k); }
    }
  }

  lemma ReadRight(s: State, n: nat, k: Counter)
    requires SetsFit(s) && Timely(s) && Right(s, k) && Enabled(s, Work(n)) && s.workers[n].pc % 2 == 0
    ensures Right(Apply(s, Work(n)), k)
  {
    var read := CounterAt(s.workers[n]);
    var closed := Close(s, About(s, read));
    CloseRight(s, About(s, read), k);
    ReadIsBase(s, read);
    AfterReadRight(closed, n, read, k);
  }

  /** With nothing about it open, a counter's set is its base. */
  lemma ReadIsBase(s: State, k: Counter)
    requires SetsFit(s)
    ensures Members(Close(s, About(s, k)).base, k) == Members(s.sets, k)
  {
    var closed := Close(s, About(s, k));
    CloseFits(s, About(s, k));
    forall p: Pair | p.0 == k ensures p in closed.base <==> p in s.sets {
      forall n | n in s.unsent && p in Touch(s.unsent[n].req)
        ensures n in About(s, k) { EventNames(s.unsent[n].req, k); }
      assert !OpenTouches(closed, p);
    }
    SameMembers(closed.base, s.sets, k);
  }

  lemma AfterReadRight(s: State, n: nat, read: Counter, k: Counter)
    requires Right(s, k) && ChangedAt(s, k) <= s.tick && n in s.workers && WellFormed(s.workers[n].event)
    requires s.workers[n].pc % 2 == 0 && s.workers[n].pc < 2 * |s.workers[n].event| && CounterAt(s.workers[n]) == read
    requires Members(s.base, read) == Members(s.sets, read)
    ensures Right(Reading(s, n, Count(s, read)), k)
  {
    var j := s.workers[n].pc / 2;
    var s' := Reading(s, n, Count(s, read));
    forall m, i | Holds(s', m, i, k) && Fresh(s', k, s'.workers[m].stamp)
      ensures s'.workers[m].value == |Members(s'.base, k)|
    {
      if m == n { assert i == j; } else { assert Holds(s, m, i, k); }
    }
    if SomeDue(s, k) {
      var m, i :| Due(s, m, i, k);
      assert Due(s', m, i, k);
    }
  }

  lemma StepRight(s: State, step: Step, k: Counter)
    requires SetsFit(s) && Timely(s) && Right(s, k) && Enabled(s, step) && InOrder(s, step) && Unseen(s, step)
    ensures Right(Apply(s, step), k)
  {
    match step
    case Set(n, req) => SetRight(s, n, req, k);
    case Publish(n) => PublishRight(s, n, k);
    case RollBack(n) => RollBackRight(s, n, k);
    case Deliver(_) => SameCountsRight(s, Apply(s, step), k);
    case Take(n, event) => TakeRight(s, n, event, k);
    case Work(n) => if s.workers[n].pc % 2 == 0 { ReadRight(s, n, k); } else { StoreRight(s, n, k); }
    case End(_, _, _) => EndRight(s, step, k);
  }

  lemma StepTimely(s: State, step: Step)
    requires Timely(s) && Enabled(s, step)
    ensures Timely(Apply(s, step))
  {
    match step
    case Set(_, req) =>
      CloseTimely(s, Rivals(s, req));
      if SetTo(s.sets, req).1 { TimelyToo(Close(s, Rivals(s, req)), Apply(s, step)); }
    case Publish(n) =>
      CloseTimely(s, {n});
      TimelyToo(Close(s, {n}), Apply(s, step));
    case Work(n) => WorkTimely(s, n);
    case _ => TimelyToo(s, Apply(s, step));
  }

  lemma TimelyToo(s: State, s': State)
    requires Timely(s) && s'.changed == s.changed && s'.origin == s.origin && s'.tick == s.tick
    requires forall n :: n in s'.workers ==>
               s'.workers[n].stamp == 0 || (n in s.workers && s'.workers[n] == s.workers[n])
    ensures Timely(s')
  {
    forall k ensures ChangedAt(s', k) <= s'.tick && StoredAt(s', k) <= s'.tick {
      assert ChangedAt(s, k) <= s.tick && StoredAt(s, k) <= s.tick;
    }
  }

  lemma CloseTimely(s: State, c: set<nat>)
    requires Timely(s)
    ensures Timely(Close(s, c))
  {
    forall k ensures ChangedAt(Close(s, c), k) <= s.tick && StoredAt(Close(s, c), k) <= s.tick {
      assert ChangedAt(s, k) <= s.tick && StoredAt(s, k) <= s.tick;
    }
  }

  lemma WorkTimely(s: State, n: nat)
    requires Timely(s) && Enabled(s, Work(n))
    ensures Timely(Apply(s, Work(n)))
  {
    CloseTimely(s, About(s, CounterAt(s.workers[n])));
    var s' := Apply(s, Work(n));
    if s.workers[n].pc % 2 == 0 {
      var closed := Close(s, About(s, CounterAt(s.workers[n])));
      forall k ensures ChangedAt(s', k) <= s'.tick && StoredAt(s', k) <= s'.tick {
        assert ChangedAt(closed, k) <= closed.tick && StoredAt(closed, k) <= closed.tick;
      }
    } else {
      forall k ensures ChangedAt(s', k) <= s'.tick && StoredAt(s', k) <= s'.tick {
        assert ChangedAt(s, k) <= s.tick && StoredAt(s, k) <= s.tick;
      }
    }
  }

  lemma {:induction false} RunKeepsInv(s: State, steps: seq<Step>, end: State)
    requires Inv(s) && Run(s, steps, end)
    ensures Inv(end)
    decreases |steps|
  {
    if steps != [] {
      StepFits(s, steps[0]);
      StepTimely(s, steps[0]);
      forall k ensures Right(Apply(s, steps[0]), k) { StepRight(s, steps[0], k); }
      RunKeepsInv(Apply(s, steps[0]), steps[1..], end);
    }
  }

  ghost predicate Underway(s: State, k: Counter) {
    || (exists e :: e in s.queue && Mentions(e, k))
    || (exists n :: n in s.unsent && Mentions(EventOf(s.unsent[n].req), k))
    || (exists n :: n in s.workers && Mentions(s.workers[n].event, k))
  }

  /** In every reachable state each stored count is right, or an event that will correct it is unsent,
      undelivered or being handled; so when nothing is underway all counts are right, whatever was reordered,
      duplicated, retried, overlapping, lost to a panic, or taken back after a failed publication. */
  lemma CountsConverge(s: State, k: Counter)
    requires Reachable(s)
    ensures Stored(s, k) == Count(s, k) || Underway(s, k)
  {
    var steps :| Run(START, steps, s);
    StartInv();
    RunKeepsInv(START, steps, s);
    assert Right(s, k);
    if !Underway(s, k) {
      assert !Noticed(s, k);
      forall n, i ensures !Due(s, n, i, k) { assert n in s.workers ==> !Mentions(s.workers[n].event, k); }
      BaseAtRest(s, k);
    }
  }

  lemma StartInv()
    ensures Inv(START)
  {
    assert Members({}, VideoLikes(0)) == {};
    forall k ensures Right(START, k) { assert Members({}, k) == {}; }
  }

  lemma BaseAtRest(s: State, k: Counter)
    requires SetsFit(s) && !Underway(s, k)
    ensures Members(s.base, k) == Members(s.sets, k)
  {
    forall p: Pair | p.0 == k ensures p in s.base <==> p in s.sets {
      forall n | n in s.unsent ensures p !in Touch(s.unsent[n].req) {
        EventNames(s.unsent[n].req, k);
        assert !Mentions(EventOf(s.unsent[n].req), k);
      }
    }
    SameMembers(s.base, s.sets, k);
  }

  // ------------------------------------------------------------------ whose likes and follows are counted

  /** The request is about user u being in the set behind counter k. */
  predicate Asks(req: Request, k: Counter, u: Id) {
    match req
    case LikeVideo(video, user, _) => k == VideoLikes(video) && u == user
    case LikeComment(comment, user, _) => k == CommentLikes(comment) && u == user
    case FollowUser(follower, following, _) =>
      (k == Following(follower) && u == following) || (k == Followers(following) && u == follower)
  }

  ghost predicate AsksAbout(req: Request, k: Counter) { exists u :: Asks(req, k, u) }

  /** A like of a video, a like of a comment and a follow each change their own sets and name their own counters. */
  lemma EventNamesWhatIsAsked(req: Request, k: Counter)
    ensures k in EventOf(req) <==> AsksAbout(req, k)
    ensures |EventOf(req)| == if req.FollowUser? then 2 else 1
  {
    match req
    case LikeVideo(video, user, _) => assert Asks(req, VideoLikes(video), user);
    case LikeComment(comment, user, _) => assert Asks(req, CommentLikes(comment), user);
    case FollowUser(a, b, _) => assert Asks(req, Following(a), b) && Asks(req, Followers(b), a);
  }

  /** Being in a set is as last asked for; what was not asked about is as before. Following has two sides, which the
      script finds in agreement. */
  lemma SetsAreAsAsked(sets: set<Pair>, req: Request, k: Counter, u: Id)
    requires Whole(sets)
    ensures var after := SetTo(sets, req).0;
            u in Members(after, k) <==> if Asks(req, k, u) then req.active else u in Members(sets, k)
  {
    var after := SetTo(sets, req).0;
    assert u in Members(after, k) <==> (k, u) in after;
    assert u in Members(sets, k) <==> (k, u) in sets;
    assert (k, u) in Touch(req) <==> Asks(req, k, u);
    assert (k, u) in Touch(req) ==> ((k, u) in sets <==> Head(req) in sets);
  }

  function With(members: set<Id>, user: Id, active: bool): set<Id> { if active then members + {user} else members - {user} }

  /** A like puts its user into the one set of its target or takes the user out, and its event names that target's
      counter alone: a video's or a comment's. */
  lemma LikeChangesItsTarget(sets: set<Pair>, target: Id, user: Id, active: bool, k: Counter)
    ensures var (liked, _) := SetTo(sets, LikeVideo(target, user, active));
            Members(liked, k) == if k == VideoLikes(target) then With(Members(sets, k), user, active) else Members(sets, k)
    ensures var (liked, _) := SetTo(sets, LikeComment(target, user, active));
            Members(liked, k) == if k == CommentLikes(target) then With(Members(sets, k), user, active) else Members(sets, k)
    ensures EventOf(LikeVideo(target, user, active)) == [VideoLikes(target)]
    ensures EventOf(LikeComment(target, user, active)) == [CommentLikes(target)]
  {
    LikeVideoChanges(sets, target, user, active, k);
    LikeCommentChanges(sets, target, user, active, k);
  }

  lemma LikeVideoChanges(sets: set<Pair>, video: Id, user: Id, active: bool, k: Counter)
    ensures var (liked, _) := SetTo(sets, LikeVideo(video, user, active));
            Members(liked, k) == if k == VideoLikes(video) then With(Members(sets, k), user, active) else Members(sets, k)
  {
    MembersAre(sets, k);
    MembersAre(SetTo(sets, LikeVideo(video, user, active)).0, k);
  }

  lemma LikeCommentChanges(sets: set<Pair>, comment: Id, user: Id, active: bool, k: Counter)
    ensures var (liked, _) := SetTo(sets, LikeComment(comment, user, active));
            Members(liked, k) == if k == CommentLikes(comment) then With(Members(sets, k), user, active) else Members(sets, k)
  {
    MembersAre(sets, k);
    MembersAre(SetTo(sets, LikeComment(comment, user, active)).0, k);
  }

  lemma MembersAre(sets: set<Pair>, k: Counter)
    ensures forall u :: u in Members(sets, k) <==> (k, u) in sets
  {
    forall u ensures u in Members(sets, k) <==> (k, u) in sets {
      if (k, u) in sets { assert (k, u).1 in Members(sets, k); }
    }
  }

  /** A follow that finds its first side as asked changes nothing. Otherwise it puts the one followed into the set of
      those the follower follows and the follower into the set of the followers, or takes both out. */
  lemma FollowChangesBothSides(sets: set<Pair>, follower: Id, following: Id, active: bool, k: Counter)
    ensures var (after, changed) := SetTo(sets, FollowUser(follower, following, active));
            && (changed <==> (following in Members(sets, Following(follower))) != active)
            && Members(after, k) ==
                 if changed && k == Following(follower) then With(Members(sets, k), following, active)
                 else if changed && k == Followers(following) then With(Members(sets, k), follower, active)
                 else Members(sets, k)
    ensures EventOf(FollowUser(follower, following, active)) == [Following(follower), Followers(following)]
  {
    MembersAre(sets, Following(follower));
    MembersAre(sets, k);
    MembersAre(SetTo(sets, FollowUser(follower, following, active)).0, k);
  }

  /** What the requests of a run and their withdrawals come to for user u and counter k. */
  ghost predicate IsOn(s: State, steps: seq<Step>, k: Counter, u: Id, on: bool)
    decreases |steps|
  {
    if steps == [] then on
    else if !Enabled(s, steps[0]) then on
    else
      var now := match steps[0]
        case Set(_, req) => if Asks(req, k, u) then req.active else on
        case RollBack(n) => if Asks(s.unsent[n].req, k, u) then !s.unsent[n].req.active else on
        case _ => on;
      IsOn(Apply(s, steps[0]), steps[1..], k, u, now)
  }

  lemma StepIsOn(s: State, step: Step, k: Counter, u: Id)
    requires SetsFit(s) && Enabled(s, step) && Unseen(s, step)
    ensures u in Members(Apply(s, step).sets, k) <==>
              match step
              case Set(_, req) => if Asks(req, k, u) then req.active else u in Members(s.sets, k)
              case RollBack(n) => if Asks(s.unsent[n].req, k, u) then !s.unsent[n].req.active else u in Members(s.sets, k)
              case _ => u in Members(s.sets, k)
  {
    match step
    case Set(_, req) => SetsAreAsAsked(s.sets, req, k, u);
    case RollBack(n) => SetsAreAsAsked(s.sets, Undoing(s.unsent[n].req), k, u);
    case _ =>
  }

  lemma {:induction false} SetsAreWhatIsOn(s: State, steps: seq<Step>, end: State, k: Counter, u: Id)
    requires SetsFit(s) && Run(s, steps, end)
    ensures u in Members(end.sets, k) <==> IsOn(s, steps, k, u, u in Members(s.sets, k))
    decreases |steps|
  {
    if steps != [] {
      StepFits(s, steps[0]);
      StepIsOn(s, steps[0], k, u);
      SetsAreWhatIsOn(Apply(s, steps[0]), steps[1..], end, k, u);
    }
  }

  /** At the end of every run, when nothing about a counter is underway, its stored count is the number of users for
      whom it was last switched on: who likes the video, who likes the comment, whom the user follows, who follows
      the user. */
  lemma CountsArePeople(steps: seq<Step>, end: State, k: Counter, people: set<Id>)
    requires Run(START, steps, end) && !Underway(end, k)
    requires forall u :: u in people <==> IsOn(START, steps, k, u, false)
    ensures Stored(end, k) == |people|
  {
    CountsConverge(end, k);
    StartInv();
    forall u ensures u in people <==> u in Members(end.sets, k) { SetsAreWhatIsOn(START, steps, end, k, u); }
    assert people == Members(end.sets, k);
  }

  // ------------------------------------------------------------------ how long a change may be taken back

  /** The step changes the membership that this request is about. */
  ghost predicate Rivalling(s: State, step: Step, req: Request) {
    step.Set? && SetTo(s.sets, step.req).1 && exists k, u :: Asks(step.req, k, u) && Asks(req, k, u)
  }

  /** The step reads a counter that this request is about. */
  ghost predicate Seeing(s: State, step: Step, req: Request) {
    step.Work? && step.n in s.workers && s.workers[step.n].pc % 2 == 0
      && s.workers[step.n].pc < 2 * |s.workers[step.n].event|
    && AsksAbout(req, CounterAt(s.workers[step.n]))
  }

  lemma SameTouchAsksSame(a: Request, b: Request)
    ensures Touch(a) == Touch(b) <==> exists k, u :: Asks(a, k, u) && Asks(b, k, u)
  {
    if Touch(a) == Touch(b) {
      var p := Head(a);
      assert p in Touch(a) && p in Touch(b);
      assert Asks(a, p.0, p.1) && Asks(b, p.0, p.1);
    }
    forall k: Counter, u: Id | Asks(a, k, u) && Asks(b, k, u) ensures Touch(a) == Touch(b) {
      assert (k, u) in Touch(a) && (k, u) in Touch(b);
      TouchesOfOne(a, b);
    }
  }

  /** Until it is published or taken back, a change may be taken back exactly as long as nobody has read a counter it
      is about and no other request has changed the same membership. */
  lemma OpenExactlyUntilSeen(s: State, step: Step, n: nat)
    requires Enabled(s, step) && n in s.unsent && step != Publish(n) && step != RollBack(n)
    ensures var s' := Apply(s, step);
            && n in s'.unsent && s'.unsent[n].req == s.unsent[n].req
            && (s'.unsent[n].open <==>
                  s.unsent[n].open && !Rivalling(s, step, s.unsent[n].req) && !Seeing(s, step, s.unsent[n].req))
  {
    match step
    case Set(_, req) => SameTouchAsksSame(s.unsent[n].req, req);
    case Work(m) =>
      if s.workers[m].pc % 2 == 0 { EventNamesWhatIsAsked(s.unsent[n].req, CounterAt(s.workers[m])); }
    case _ =>
  }

  /** A change that was made is open at first; one that was none is not remembered. */
  lemma ChangedIsOpenAtFirst(s: State, n: nat, req: Request)
    requires Enabled(s, Set(n, req))
    ensures var s' := Apply(s, Set(n, req));
            if SetTo(s.sets, req).1 then n in s'.unsent && s'.unsent[n] == Unsent(req, true) else s' == s
  {
  }

  // ------------------------------------------------------------------ one handler at a time is enough

  predicate Serial(s: State, step: Step) {
    step.Take? ==> forall n :: n in s.workers ==> forall k :: k in s.workers[n].event ==> k !in step.event
  }

  /** A run in which no two handlers of one counter overlap. */
  ghost predicate SerialRun(s: State, steps: seq<Step>, end: State)
    decreases |steps|
  {
    if steps == [] then end == s
    else
      && Enabled(s, steps[0]) && Serial(s, steps[0]) && Unseen(s, steps[0])
      && SerialRun(Apply(s, steps[0]), steps[1..], end)
  }

  ghost predicate Apart(s: State) {
    forall n, m, k :: n in s.workers && m in s.workers && k in s.workers[n].event && k in s.workers[m].event ==> n == m
  }

  ghost predicate ReadsAreLatest(s: State) {
    forall n, i, k :: Holds(s, n, i, k) ==> StoredAt(s, k) <= s.workers[n].stamp
  }

  lemma SerialStepKeeps(s: State, step: Step)
    requires Apart(s) && Timely(s) && ReadsAreLatest(s) && Enabled(s, step) && Serial(s, step)
    ensures Apart(Apply(s, step)) && Timely(Apply(s, step)) && ReadsAreLatest(Apply(s, step))
    ensures InOrder(s, step)
  {
    StepTimely(s, step);
    SerialStaysApart(s, step);
    SerialReadsAreLatest(s, step);
    if Storing(s, step) { assert Holds(s, step.n, s.workers[step.n].pc / 2, CounterAt(s.workers[step.n])); }
  }

  lemma SerialStaysApart(s: State, step: Step)
    requires Apart(s) && Enabled(s, step) && Serial(s, step)
    ensures Apart(Apply(s, step))
  {
  }

  lemma SerialReadsAreLatest(s: State, step: Step)
    requires Apart(s) && Timely(s) && ReadsAreLatest(s) && Enabled(s, step)
    ensures ReadsAreLatest(Apply(s, step))
  {
    var s' := Apply(s, step);
    forall n, i, k | Holds(s', n, i, k) ensures StoredAt(s', k) <= s'.workers[n].stamp {
      assert StoredAt(s, k) <= s.tick;
      if step.Work? {
        SerialWorkIsLatest(s, step, n, i, k);
      } else {
        assert n in s.workers && s'.workers[n] == s.workers[n] && Holds(s, n, i, k);
      }
    }
  }

  lemma SerialWorkIsLatest(s: State, step: Step, n: nat, i: nat, k: Counter)
    requires Apart(s) && ReadsAreLatest(s) && step.Work? && Enabled(s, step) && Holds(Apply(s, step), n, i, k)
             && StoredAt(s, k) <= s.tick
    ensures StoredAt(Apply(s, step), k) <= Apply(s, step).workers[n].stamp
  {
    if n != step.n {
      assert Holds(s, n, i, k) && k in s.workers[n].event;
      assert CounterAt(s.workers[step.n]) in s.workers[step.n].event;
    }
  }

  /** Handling each counter's events one at a time stores counts in the order in which they are read, so
      CountsConverge covers every such run. */
  lemma {:induction false} SerialHandlersAreInOrder(s: State, steps: seq<Step>, end: State)
    requires Apart(s) && Timely(s) && ReadsAreLatest(s) && SerialRun(s, steps, end)
    ensures Run(s, steps, end)
    decreases |steps|
  {
    if steps != [] {
      SerialStepKeeps(s, steps[0]);
      SerialHandlersAreInOrder(Apply(s, steps[0]), steps[1..], end);
    }
  }

  // ------------------------------------------------------------------ the provisos are needed

  predicate Idle(s: State) { s.unsent == map[] && s.queue == multiset{} && s.workers == map[] }

  lemma {:induction false} RunOn(s: State, steps: seq<Step>, end: State, step: Step)
    requires Run(s, steps, end) && Enabled(end, step) && InOrder(end, step) && Unseen(end, step)
    ensures Run(s, steps + [step], Apply(end, step))
    decreases |steps|
  {
    if steps == [] {
      assert (steps + [step])[1..] == [];
    } else {
      RunOn(Apply(s, steps[0]), steps[1..], end, step);
      assert (steps + [step])[1..] == steps[1..] + [step];
    }
  }

  lemma ReachOn(s: State, step: Step) returns (next: State)
    requires Reachable(s) && Enabled(s, step) && InOrder(s, step) && Unseen(s, step)
    ensures Reachable(next) && next == Apply(s, step)
  {
    var steps :| Run(START, steps, s);
    RunOn(START, steps, s, step);
    next := Apply(s, step);
  }

  lemma StartReachable()
    ensures Reachable(START)
  {
    assert Run(START, [], START);
  }

  lemma ReachableInv(s: State)
    requires Reachable(s)
    ensures Inv(s)
  {
    var steps :| Run(START, steps, s);
    StartInv();
    RunKeepsInv(START, steps, s);
  }

  lemma FirstLike(video: Id, user: Id) returns (s: State)
    requires video != 0
    ensures Reachable(s) && s.sets == {(VideoLikes(video), user)}
            && s.unsent == map[1 := Unsent(LikeVideo(video, user, true), true)]
    ensures s.queue == multiset{} && s.stored == map[] && s.workers == map[] && s.tick == 1
  {
    StartReachable();
    s := ReachOn(START, Set(1, LikeVideo(video, user, true)));
    assert OpenPairs(START, Rivals(START, LikeVideo(video, user, true))) == {};
  }

  lemma FirstTaken(video: Id, user: Id) returns (s: State)
    requires video != 0
    ensures var k, e := VideoLikes(video), [VideoLikes(video)];
            && Reachable(s) && s.sets == {(k, user)} && s.unsent == map[] && s.queue == multiset{} && s.stored == map[]
            && s.workers == map[1 := Worker(e, 0, 0, 0)] && s.tick == 1
  {
    var s1 := FirstLike(video, user);
    var s2 := ReachOn(s1, Publish(1));
    assert s2.unsent == map[] && s2.queue == multiset{[VideoLikes(video)]};
    s := ReachOn(s2, Take(1, [VideoLikes(video)]));
    assert s.queue == multiset{};
  }

  /** One like, its event taken, the set read. */
  lemma SlowReader(video: Id, early: Id) returns (s: State)
    requires video != 0
    ensures var k, e := VideoLikes(video), [VideoLikes(video)];
            && Reachable(s) && s.sets == {(k, early)} && s.unsent == map[] && s.queue == multiset{} && s.stored == map[]
            && s.workers == map[1 := Worker(e, 1, 1, 2)] && s.tick == 2
  {
    var taken := FirstTaken(video, early);
    assert Members(taken.sets, VideoLikes(video)) == {early};
    s := ReachOn(taken, Work(1));
    assert s.unsent == map[];
  }

  /** Then a second like, and its event taken by a second handler. */
  lemma SecondHandler(video: Id, early: Id, late: Id) returns (s: State)
    requires video != 0 && early != late
    ensures var k, e := VideoLikes(video), [VideoLikes(video)];
            && Reachable(s) && s.sets == {(k, early), (k, late)} && s.unsent == map[] && s.queue == multiset{}
               && s.stored == map[]
            && s.workers == map[1 := Worker(e, 1, 1, 2), 2 := Worker(e, 0, 0, 0)] && s.tick == 2
  {
    var k, e, req := VideoLikes(video), [VideoLikes(video)], LikeVideo(video, late, true);
    var s1 := SlowReader(video, early);
    var s2 := ReachOn(s1, Set(1, req));
    assert s2.sets == {(k, early), (k, late)} && s2.unsent == map[1 := Unsent(req, true)];
    var s3 := ReachOn(s2, Publish(1));
    assert s3.unsent == map[] && s3.queue == multiset{e};
    s := ReachOn(s3, Take(2, e));
    assert s.queue == multiset{};
  }

  /** Who reads late and stores first is right; the other is then out of order. */
  lemma SecondStoresFirst(video: Id, early: Id, late: Id) returns (s: State)
    requires video != 0 && early != late
    ensures var k, e := VideoLikes(video), [VideoLikes(video)];
            && Reachable(s) && s.sets == {(k, early), (k, late)} && s.unsent == map[] && s.queue == multiset{}
            && Stored(s, k) == 2 && StoredAt(s, k) == 3 && s.workers == map[1 := Worker(e, 1, 1, 2)]
  {
    var e := [VideoLikes(video)];
    var s2 := SecondReads(video, early, late);
    var s3 := ReachOn(s2, Work(2));
    assert s3.workers[2] == Worker(e, 2, 2, 3);
    s := ReachOn(s3, End(2, Success, true));
    assert s.workers == map[1 := Worker(e, 1, 1, 2)];
  }

  lemma SecondReads(video: Id, early: Id, late: Id) returns (s: State)
    requires video != 0 && early != late
    ensures var k, e := VideoLikes(video), [VideoLikes(video)];
            && Reachable(s) && s.sets == {(k, early), (k, late)} && s.unsent == map[] && s.queue == multiset{}
            && s.workers == map[1 := Worker(e, 1, 1, 2), 2 := Worker(e, 1, 2, 3)] && StoredAt(s, k) <= 2
  {
    var k := VideoLikes(video);
    var s1 := SecondHandler(video, early, late);
    assert Members(s1.sets, k) == {early, late};
    assert StoredAt(s1, k) <= s1.tick by { ReachableInv(s1); }
    s := ReachOn(s1, Work(2));
    assert s.unsent == map[];
  }

  /** A store out of order breaks it: from a reachable state in which all is right, a handler that read before
      the last change stores what it read, and nothing is left that would correct it. */
  lemma StoringOutOfOrderSticks(video: Id, early: Id, late: Id) returns (s: State)
    requires video != 0 && early != late
    ensures Reachable(s) && Enabled(s, Work(1)) && !InOrder(s, Work(1))
            && Enabled(Apply(s, Work(1)), End(1, Success, true))
    ensures var k, end := VideoLikes(video), Apply(Apply(s, Work(1)), End(1, Success, true));
            Idle(end) && Stored(s, k) == Count(s, k) == 2 && Stored(end, k) == 1 && Count(end, k) == 2
  {
    s := SecondStoresFirst(video, early, late);
    var k := VideoLikes(video);
    assert Members(s.sets, k) == {early, late};
    var end := Apply(Apply(s, Work(1)), End(1, Success, true));
    assert end.workers == map[];
  }

  lemma ReadBeforePublished(video: Id, user: Id) returns (s: State)
    requires video != 0
    ensures var k, e := VideoLikes(video), [VideoLikes(video)];
            && Reachable(s) && s.sets == {(k, user)} && s.unsent == map[1 := Unsent(LikeVideo(video, user, true), false)]
            && s.queue == multiset{} && s.workers == map[1 := Worker(e, 1, 1, 2)] && StoredAt(s, k) <= 2
  {
    var k := VideoLikes(video);
    var s3 := TakenBeforePublished(video, user);
    assert Members(s3.sets, k) == {user};
    assert StoredAt(s3, k) <= s3.tick by { ReachableInv(s3); }
    s := ReachOn(s3, Work(1));
    assert s.unsent == map[1 := Unsent(LikeVideo(video, user, true), false)];
  }

  lemma TakenBeforePublished(video: Id, user: Id) returns (s: State)
    requires video != 0
    ensures var k, e, req := VideoLikes(video), [VideoLikes(video)], LikeVideo(video, user, true);
            && Reachable(s) && s.sets == {(k, user)} && s.unsent == map[1 := Unsent(req, true)] && s.tick == 1
            && s.queue == multiset{} && s.workers == map[1 := Worker(e, 0, 0, 0)]
  {
    var e := [VideoLikes(video)];
    var s1 := FirstLike(video, user);
    var s2 := ReachOn(s1, Deliver(e));
    assert s2.queue == multiset{e};
    s := ReachOn(s2, Take(1, e));
    assert s.queue == multiset{};
  }

  /** So does taking back a change that has been read: the count read in between stays. */
  lemma RollingBackWhatWasReadSticks(video: Id, user: Id) returns (s: State)
    requires video != 0
    ensures Reachable(s) && Enabled(s, RollBack(1)) && !Unseen(s, RollBack(1))
    ensures Enabled(Apply(s, RollBack(1)), Work(1)) && InOrder(Apply(s, RollBack(1)), Work(1))
    ensures Enabled(Apply(Apply(s, RollBack(1)), Work(1)), End(1, Success, true))
    ensures var k, end := VideoLikes(video), Apply(Apply(Apply(s, RollBack(1)), Work(1)), End(1, Success, true));
            Idle(end) && Stored(end, k) == 1 && Count(end, k) == 0
  {
    var k := VideoLikes(video);
    s := ReadBeforePublished(video, user);
    var back := Apply(s, RollBack(1));
    assert back.sets == {} && back.unsent == map[];
    var end := Apply(Apply(back, Work(1)), End(1, Success, true));
    assert end.workers == map[] && Members(end.sets, k) == {};
  }

  lemma LikeThenUnlike(video: Id, user: Id) returns (s: State)
    requires video != 0
    ensures Reachable(s) && s.sets == {} && s.queue == multiset{} && s.stored == map[] && s.workers == map[]
    ensures s.unsent == map[1 := Unsent(LikeVideo(video, user, true), false), 2 := Unsent(LikeVideo(video, user, false), true)]
  {
    var s1 := FirstLike(video, user);
    s := ReachOn(s1, Set(2, LikeVideo(video, user, false)));
  }

  /** And so do crossing requests of one user, though nobody reads: a like and an unlike that both fail to
      publish are taken back in the order in which they came, the first without effect, the second by liking. */
  lemma RollingBackARivalSticks(video: Id, user: Id) returns (s: State)
    requires video != 0
    ensures Reachable(s) && Enabled(s, RollBack(1)) && !Unseen(s, RollBack(1))
            && Enabled(Apply(s, RollBack(1)), RollBack(2))
    ensures var k, end := VideoLikes(video), Apply(Apply(s, RollBack(1)), RollBack(2));
            Idle(end) && Stored(end, k) == 0 && Count(end, k) == 1
  {
    var k, unlike := VideoLikes(video), LikeVideo(video, user, false);
    s := LikeThenUnlike(video, user);
    var back := Apply(s, RollBack(1));
    assert back.sets == {} && back.unsent == map[2 := Unsent(unlike, true)];
    var end := Apply(back, RollBack(2));
    assert end.sets == {(k, user)} && end.unsent == map[] && Members(end.sets, k) == {user};
  }

  // ------------------------------------------------------------------ the program's side

  class Interactions {
    var sets: set<Pair>
    var stored: map<Counter, nat>
    var published: seq<Event>

    constructor ()
      ensures sets == {} && stored == map[] && published == []
    {
      sets, stored, published := {}, map[], [];
    }

    /** Repo.Set of likes and follows: whether the state changed. */
    method SetMember(req: Request) returns (changed: bool)
      modifies this`sets
      ensures (sets, changed) == SetTo(old(sets), req)
    {
      if (Head(req) in sets) == req.active {
        return false;
      }
      if req.active {
        sets := sets + Touch(req);
      } else {
        sets := sets - Touch(req);
      }
      return true;
    }

    /** setLike and setFollow: no event when nothing changed; when publishing fails, the set is written back.
        None is the error. */
    method Switch(req: Request, publishOk: bool) returns (result: Option<bool>)
      modifies this`sets, this`published
      ensures var (next, changed) := SetTo(old(sets), req);
              && result == (if changed && !publishOk then None else Some(req.active))
              && published == old(published) + (if changed && publishOk then [EventOf(req)] else [])
              && sets == if changed && !publishOk then SetTo(next, Undoing(req)).0 else next
    {
      var changed := SetMember(req);
      if !changed {
        return Some(req.active);
      }
      if publishOk {
        published := published + [EventOf(req)];
        return Some(req.active);
      }
      var undone := SetMember(Undoing(req));
      return None;
    }

    /** The recounting handlers: for each counter of the event, the set's size is read and stored. */
    method Recount(event: Event) returns (result: HandlerResult)
      modifies this`stored
      ensures result == if event == [] || exists k :: k in event && k.id == 0 then Permanent else Success
      ensures result == Success <==> WellFormed(event)
      ensures result == Permanent ==> stored == old(stored)
      ensures result == Success ==> stored.Keys == old(stored).Keys + (set k | k in event)
      ensures result == Success ==> forall k :: k in stored ==>
                if k in event then stored[k] == |Members(sets, k)| else k in old(stored) && stored[k] == old(stored)[k]
    {
      if event == [] || exists k :: k in event && k.id == 0 {
        return Permanent;
      }
      for i := 0 to |event|
        invariant stored.Keys == old(stored).Keys + (set k | k in event[..i])
        invariant forall k :: k in stored ==>
                    if k in event[..i] then stored[k] == |Members(sets, k)| else k in old(stored) && stored[k] == old(stored)[k]
      {
        assert event[..i + 1] == event[..i] + [event[i]];
        stored := stored[event[i] := |Members(sets, event[i])|];
      }
      assert event[..|event|] == event;
      return Success;
    }
  }
}
