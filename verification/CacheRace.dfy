/** Loads of video details against each other and against the requests that change rows: when a load writes the
    truth into the cache, and what a reader that waits for a load is given. */
module CacheRace {
  import opened Text
  import VideoStatus
  import opened DetailCache

  // ------------------------------------------------------------------ loads whose read and write come apart

  /** A request changes its row and the cache together; a load asks, reads and writes in separate turns. */
  datatype Turn = Request(op: Op) | Part(ev: Event)

  predicate CanGo(w: World, turn: Turn) {
    match turn
    case Request(op) => !op.OpGet?
    case Part(ev) => (ev.EvAsk? || ev.EvRead? || ev.EvWrite? || ev.EvFail?) && Possible(w, ev)
  }

  function Go(w: World, turn: Turn): World
    requires CanGo(w, turn)
  {
    match turn
    case Request(op) => w.(sys := Apply(w.sys, op))
    case Part(ev) => Happen(w, ev)
  }

  ghost predicate Goes(w: World, turns: seq<Turn>)
    decreases |turns|
  {
    turns == [] || (CanGo(w, turns[0]) && Goes(Go(w, turns[0]), turns[1..]))
  }

  /** What was read is what a reader would now be told, but for the comment count. */
  predicate Stands(s: Sys, id: Id, read: Option<Row>) {
    match read
    case None => id in s.rows ==> !VideoStatus.Out(s.rows[id].status)
    case Some(row) => id in s.rows && s.rows[id] == row.(comments := s.rows[id].comments)
  }

  predicate Written(read: Option<Row>) { read.None? || read.value.status == VideoStatus.Published }

  /** Writing back what a load has read leaves a truthful record if and only if it still stands. */
  lemma WriteIsTruthfulExactlyWhenTheReadStands(s: Sys, id: Id, read: Option<Row>, t: int)
    requires Written(read)
    ensures id in WriteBack(s, id, read, t).cache
    ensures Truthful(WriteBack(s, id, read, t), id) <==> Stands(s, id, read)
  {
    if read.Some? && id in s.rows {
      var row, now := read.value, s.rows[id];
      assert row.(comments := now.comments) == now <==> row == now.(comments := row.comments);
    }
  }

  /** A load that writes finds the row as it read it. */
  predicate WriteStands(w: World, turn: Turn)
    requires CanGo(w, turn)
  {
    turn.Part? && turn.ev.EvWrite? ==>
      var read := w.flights[turn.ev.id].read.value;
      Written(read) ==> Stands(w.sys, turn.ev.id, read)
  }

  ghost predicate EveryWriteStands(w: World, turns: seq<Turn>)
    requires Goes(w, turns)
    decreases |turns|
  {
    turns == [] || (WriteStands(w, turns[0]) && EveryWriteStands(Go(w, turns[0]), turns[1..]))
  }

  ghost predicate AlwaysTruthful(w: World, turns: seq<Turn>)
    requires Goes(w, turns)
    decreases |turns|
  {
    Inv(w.sys) && (turns == [] || AlwaysTruthful(Go(w, turns[0]), turns[1..]))
  }

  lemma TurnKeepsTruth(w: World, turn: Turn)
    requires CanGo(w, turn) && Inv(w.sys)
    ensures Inv(Go(w, turn).sys) <==> WriteStands(w, turn)
  {
    match turn
    case Request(op) => StepKeepsInv(w.sys, op);
    case Part(EvWrite(id, t)) =>
      var read := w.flights[id].read.value;
      if Written(read) {
        WriteIsTruthfulExactlyWhenTheReadStands(w.sys, id, read, t);
        OthersUntouched(w.sys, id, read, t);
      }
    case Part(_) =>
  }

  lemma OthersUntouched(s: Sys, id: Id, read: Option<Row>, t: int)
    requires Inv(s) && Written(read)
    ensures Inv(WriteBack(s, id, read, t)) <==> Truthful(WriteBack(s, id, read, t), id)
  {
    var s' := WriteBack(s, id, read, t);
    forall k | k in s'.cache && k != id ensures Truthful(s', k) { assert Truthful(s, k); }
  }

  /** Over any interleaving of loads and requests, the cache is truthful at every moment if and only if every
      load that writes finds the row as it read it. */
  lemma {:induction false} TruthfulExactlyWhenEveryWriteStands(w: World, turns: seq<Turn>)
    requires Goes(w, turns) && Inv(w.sys)
    ensures AlwaysTruthful(w, turns) <==> EveryWriteStands(w, turns)
    decreases |turns|
  {
    if turns != [] {
      TurnKeepsTruth(w, turns[0]);
      if WriteStands(w, turns[0]) {
        TruthfulExactlyWhenEveryWriteStands(Go(w, turns[0]), turns[1..]);
      } else {
        assert !AlwaysTruthful(Go(w, turns[0]), turns[1..]);
      }
    }
  }

  /** No request changes a row, but for its comment count, between a load's read of it and that load's end. */
  ghost predicate Undisturbed(w: World, turns: seq<Turn>)
    requires Goes(w, turns)
    decreases |turns|
  {
    turns == [] || (LeavesReadsAlone(w, turns[0]) && Undisturbed(Go(w, turns[0]), turns[1..]))
  }

  ghost predicate LeavesReadsAlone(w: World, turn: Turn) {
    turn.Request? ==> forall id :: id in w.flights && w.flights[id].read.Some? ==>
      SameButComments(ReadRow(w.sys, id), ReadRow(Apply(w.sys, turn.op), id))
  }

  predicate SameButComments(a: Option<Row>, b: Option<Row>) {
    (a.None? <==> b.None?) && (a.Some? ==> a.value.(comments := 0) == b.value.(comments := 0))
  }

  ghost predicate ReadsStand(w: World) {
    forall id :: id in w.flights && w.flights[id].read.Some? ==>
      SameButComments(w.flights[id].read.value, ReadRow(w.sys, id))
  }

  lemma ReadsGoOnStanding(w: World, turn: Turn)
    requires CanGo(w, turn) && ReadsStand(w) && LeavesReadsAlone(w, turn)
    ensures WriteStands(w, turn) && ReadsStand(Go(w, turn))
  {
    var w' := Go(w, turn);
    forall id | id in w'.flights && w'.flights[id].read.Some?
      ensures SameButComments(w'.flights[id].read.value, ReadRow(w'.sys, id))
    {
      if turn.Request? {
        assert SameButComments(w.flights[id].read.value, ReadRow(w.sys, id));
      }
    }
    if turn.Part? && turn.ev.EvWrite? {
      var id := turn.ev.id;
      assert SameButComments(w.flights[id].read.value, ReadRow(w.sys, id));
      if w.flights[id].read.value.Some? {
        SameStands(w.flights[id].read.value.value, w.sys.rows[id]);
      }
    }
  }

  lemma SameStands(row: Row, now: Row)
    requires row.(comments := 0) == now.(comments := 0)
    ensures now == row.(comments := now.comments)
  {
    assert row.(comments := 0).(comments := now.comments) == now.(comments := 0).(comments := now.comments);
  }

  lemma {:induction false} UndisturbedWritesStand(w: World, turns: seq<Turn>)
    requires Goes(w, turns) && ReadsStand(w) && Undisturbed(w, turns)
    ensures EveryWriteStands(w, turns)
    decreases |turns|
  {
    if turns != [] {
      ReadsGoOnStanding(w, turns[0]);
      UndisturbedWritesStand(Go(w, turns[0]), turns[1..]);
    }
  }

  /** So in every history in which no row changes between a load's read and its write, the cache is truthful
      throughout, and everyone is shown exactly what CacheShowsTheRow says. */
  lemma UndisturbedLoadsKeepTheCacheTruthful(turns: seq<Turn>)
    requires Goes(DAWN, turns) && Undisturbed(DAWN, turns)
    ensures AlwaysTruthful(DAWN, turns)
  {
    UndisturbedWritesStand(DAWN, turns);
    TruthfulExactlyWhenEveryWriteStands(DAWN, turns);
  }

  /** It does go wrong otherwise: any load that has read a public row just before its owner deletes it writes
      the record of a row that is gone, and whoever asks is served it. */
  lemma InterleavedLoadOutlivesTheRow(w: World, id: Id, t: int)
    requires id in w.flights && w.flights[id].read.None? && id in w.sys.rows
             && w.sys.rows[id].status == VideoStatus.Published && w.clock <= t
    ensures var turns := [Part(EvRead(id)), Request(OpDelete(id, w.sys.rows[id].author)), Part(EvWrite(id, t))];
            && Goes(w, turns) && !EveryWriteStands(w, turns)
            && var end := Go(Go(Go(w, turns[0]), turns[1]), turns[2]);
               id !in end.sys.rows && Ask(end, id, t).1 == Served(w.sys.rows[id])
  {
    var turns := [Part(EvRead(id)), Request(OpDelete(id, w.sys.rows[id].author)), Part(EvWrite(id, t))];
    var w1 := Go(w, turns[0]);
    var w2 := Go(w1, turns[1]);
    assert turns[1..][1..] == turns[2..] && turns[2..][1..] == [];
    assert CanGo(w2, turns[2]) && !WriteStands(w2, turns[2]);
    assert Goes(Go(w2, turns[2]), []);
    assert Goes(w2, turns[2..]);
    assert Goes(w1, turns[1..]);
    assert !EveryWriteStands(w2, turns[2..]);
    assert !EveryWriteStands(w1, turns[1..]);
  }

  /** Even a load that reads and writes in one go leaves such a record when it falls inside a deletion, which
      drops the record first and deletes the row after. */
  lemma LoadInsideADeletionOutlivesTheRow(w: World, id: Id, t: int)
    requires id !in w.flights && id in w.sys.rows && w.sys.rows[id].status == VideoStatus.Published && w.clock <= t
    ensures var w1 := Happen(w, EvDrop(id));
            && Possible(w1, EvAsk(id, t)) && Possible(Happen(w1, EvAsk(id, t)), EvRead(id))
            && var w2 := Happen(Happen(w1, EvAsk(id, t)), EvRead(id));
            && Possible(w2, EvWrite(id, t))
            && var w3 := Happen(Happen(w2, EvWrite(id, t)), EvRow(id, None));
               id !in w3.sys.rows && Ask(w3, id, t).1 == Served(w.sys.rows[id])
  {
  }

  predicate HasRecord(w: World, id: Id) { id in w.sys.cache && w.sys.cache[id].Hit? }

  /** The load that lands with this event read a public row, or found none. */
  predicate LandsWith(w: World, ev: Event, id: Id, found: bool)
    requires Possible(w, ev)
  {
    ev.EvWrite? && ev.id == id && match w.flights[id].read.value
      case None => !found
      case Some(row) => found && row.status == VideoStatus.Published
  }

  predicate SetsRecord(w: World, ev: Event, id: Id)
    requires Possible(w, ev)
  {
    (ev.EvWarm? && ev.id == id) || LandsWith(w, ev, id, true)
  }

  /** The world as event i finds it. */
  ghost function WorldAt(w: World, events: seq<Event>, end: World, i: nat): (r: World)
    requires History(w, events, end) && i <= |events|
    ensures i < |events| ==> Possible(r, events[i])
    decreases i
  {
    if i == 0 then w else WorldAt(Happen(w, events[0]), events[1..], end, i - 1)
  }

  /** No load that found nothing lands from event i on. */
  ghost predicate NoMarkerFrom(w: World, events: seq<Event>, end: World, id: Id, i: nat)
    requires History(w, events, end)
  {
    forall q {:trigger events[q]} :: i <= q < |events| ==> !LandsWith(WorldAt(w, events, end, q), events[q], id, false)
  }

  /** A record is set and no miss marker written after it. */
  ghost predicate SetForGood(w: World, events: seq<Event>, end: World, id: Id)
    requires History(w, events, end)
  {
    exists p :: 0 <= p < |events| && SetsRecord(WorldAt(w, events, end, p), events[p], id)
      && NoMarkerFrom(w, events, end, id, p + 1)
  }

  lemma MarkersOneOn(w: World, events: seq<Event>, end: World, id: Id, i: nat)
    requires History(w, events, end) && events != []
    ensures NoMarkerFrom(w, events, end, id, i + 1) <==> NoMarkerFrom(Happen(w, events[0]), events[1..], end, id, i)
    ensures NoMarkerFrom(w, events, end, id, 0) <==>
              !LandsWith(w, events[0], id, false) && NoMarkerFrom(Happen(w, events[0]), events[1..], end, id, 0)
  {
    forall q: nat | 0 < q < |events|
      ensures WorldAt(w, events, end, q) == WorldAt(Happen(w, events[0]), events[1..], end, q - 1)
              && events[q] == events[1..][q - 1]
    {}
    if NoMarkerFrom(w, events, end, id, i + 1) {
      forall q: nat | i <= q < |events[1..]|
        ensures !LandsWith(WorldAt(Happen(w, events[0]), events[1..], end, q), events[1..][q], id, false)
      {
        assert events[1..][q] == events[q + 1];
      }
    }
  }

  lemma SetOneOn(w: World, events: seq<Event>, end: World, id: Id)
    requires History(w, events, end) && events != []
    ensures var w', rest := Happen(w, events[0]), events[1..];
            SetForGood(w, events, end, id) <==>
              SetForGood(w', rest, end, id) || (SetsRecord(w, events[0], id) && NoMarkerFrom(w', rest, end, id, 0))
  {
    var w', rest := Happen(w, events[0]), events[1..];
    MarkersOneOn(w, events, end, id, 0);
    if SetForGood(w, events, end, id) {
      var p :| 0 <= p < |events| && SetsRecord(WorldAt(w, events, end, p), events[p], id)
        && NoMarkerFrom(w, events, end, id, p + 1);
      if p > 0 {
        MarkersOneOn(w, events, end, id, p);
        assert SetsRecord(WorldAt(w', rest, end, p - 1), rest[p - 1], id);
      }
    }
    if SetForGood(w', rest, end, id) {
      var p :| 0 <= p < |rest| && SetsRecord(WorldAt(w', rest, end, p), rest[p], id)
        && NoMarkerFrom(w', rest, end, id, p + 1);
      MarkersOneOn(w, events, end, id, p + 1);
      assert SetsRecord(WorldAt(w, events, end, p + 1), events[p + 1], id);
    }
    assert WorldAt(w, events, end, 0) == w;
  }

  lemma RecordAfter(w: World, ev: Event, id: Id)
    requires Possible(w, ev) && ev != EvDrop(id)
    ensures HasRecord(Happen(w, ev), id) <==>
              SetsRecord(w, ev, id) || (HasRecord(w, id) && !LandsWith(w, ev, id, false))
  {
  }

  /** What is left in the cache of a video that nothing drops. */
  lemma {:induction false} RecordIsLeft(w: World, events: seq<Event>, end: World, id: Id)
    requires History(w, events, end) && EvDrop(id) !in events
    ensures HasRecord(end, id) <==>
              SetForGood(w, events, end, id) || (HasRecord(w, id) && NoMarkerFrom(w, events, end, id, 0))
    decreases |events|
  {
    if events != [] {
      var w' := Happen(w, events[0]);
      assert events[0] in events && forall ev :: ev in events[1..] ==> ev in events;
      RecordIsLeft(w', events[1..], end, id);
      SetOneOn(w, events, end, id);
      MarkersOneOn(w, events, end, id, 0);
      RecordAfter(w, events[0], id);
    }
  }

  predicate OutlivesItsRow(w: World, id: Id) { id !in w.sys.rows && HasRecord(w, id) }

  /** Exactly when a deletion leaves a record behind. Over every history that follows the drop with which a
      deletion begins, as long as nothing drops the record again: one is left without its row if and only if the
      row is gone, a load that had read a public row has landed or a request has warmed the record, and no load
      that found nothing has landed since. */
  lemma RecordOutlivesItsRowExactlyWhenSetForGood(w: World, id: Id, events: seq<Event>, end: World)
    requires History(Happen(w, EvDrop(id)), events, end) && EvDrop(id) !in events
    ensures OutlivesItsRow(end, id) <==> id !in end.sys.rows && SetForGood(Happen(w, EvDrop(id)), events, end, id)
  {
    RecordIsLeft(Happen(w, EvDrop(id)), events, end, id);
  }

  // ------------------------------------------------------------------ waiting for a load

  predicate Lands(ev: Event, id: Id) { (ev.EvWrite? || ev.EvFail?) && ev.id == id }

  /** The load stays in the air all through these events. */
  predicate StaysUp(events: seq<Event>, id: Id) { forall i :: 0 <= i < |events| ==> !Lands(events[i], id) }

  lemma {:induction false} FlightGoesOn(w: World, events: seq<Event>, end: World, id: Id)
    requires History(w, events, end) && id in w.flights && StaysUp(events, id)
    ensures id in end.flights && end.flights[id].shared == w.flights[id].shared
    decreases |events|
  {
    if events != [] {
      var w' := Happen(w, events[0]);
      assert id in w'.flights && w'.flights[id].shared == w.flights[id].shared;
      forall i | 0 <= i < |events[1..]| ensures !Lands(events[1..][i], id) { assert events[1..][i] == events[i + 1]; }
      FlightGoesOn(w', events[1..], end, id);
    }
  }

  /** What those who wait are given when a load lands: its value, unless it failed or was a mere refresh. */
  function Received(w: World, landing: Event): Option<Answer>
    requires (landing.EvWrite? || landing.EvFail?) && Possible(w, landing)
  {
    if landing.EvFail? then None else Delivered(w.flights[landing.id].shared, w.flights[landing.id].read.value)
  }

  /** From the moment a reader starts to wait until the load it waits for lands, whatever happens in between:
      the reader gets a value if and only if the load succeeds and is not one that was under way to refresh a
      stale record when the reader came. */
  lemma WaiterGetsAValueExactlyWhen(w: World, id: Id, t: int, events: seq<Event>, end: World, landing: Event)
    requires Possible(w, EvAsk(id, t)) && Ask(w, id, t).1.Waits?
    requires History(Happen(w, EvAsk(id, t)), events, end) && StaysUp(events, id)
    requires Lands(landing, id) && Possible(end, landing)
    ensures Received(end, landing).Some? <==> landing.EvWrite? && !(id in w.flights && !w.flights[id].shared)
  {
    FlightGoesOn(Happen(w, EvAsk(id, t)), events, end, id);
  }

  lemma {:induction false} RecordGoesOn(w: World, events: seq<Event>, end: World, id: Id)
    requires History(w, events, end) && id in w.flights && StaysUp(events, id) && EvDrop(id) !in events
    requires id in w.sys.cache && w.sys.cache[id].Hit?
    ensures id in end.sys.cache && end.sys.cache[id].Hit?
    ensures (forall ev :: ev in events && ev.EvWarm? ==> ev.id != id) ==> end.sys.cache[id] == w.sys.cache[id]
    decreases |events|
  {
    if events != [] {
      var w' := Happen(w, events[0]);
      assert events[0] in events;
      assert id in w'.flights && id in w'.sys.cache && w'.sys.cache[id].Hit?;
      forall ev | ev in events[1..] ensures ev in events {}
      forall i | 0 <= i < |events[1..]| ensures !Lands(events[1..][i], id) { assert events[1..][i] == events[i + 1]; }
      RecordGoesOn(w', events[1..], end, id);
    }
  }

  predicate Unusable(record: Record, t: int) { t >= record.evictAt || (record.Hit? && Age(record.expireAt, t) == TooOld) }

  /** A reader joins a refresh, to be given an error, only if the record has been dropped since the refresh of it
      began, or has aged out; and while nothing warms the record again, a dropped or aged record is what makes
      the next reader join it. */
  lemma ReaderJoinsARefreshOnlyAfterLosingTheRecord(w0: World, id: Id, t0: int, events: seq<Event>, w: World, t: int)
    requires Possible(w0, EvAsk(id, t0)) && id !in w0.flights
    requires id in w0.sys.cache && w0.sys.cache[id].Hit? && t0 < w0.sys.cache[id].evictAt
             && Age(w0.sys.cache[id].expireAt, t0) == Stale
    requires History(Happen(w0, EvAsk(id, t0)), events, w) && StaysUp(events, id)
    ensures Ask(w, id, t).1.Waits? ==> Ask(w, id, t).1 == Waits(false)
    ensures Ask(w, id, t).1.Waits? ==> EvDrop(id) in events || (id in w.sys.cache && Unusable(w.sys.cache[id], t))
    ensures (forall ev :: ev in events && ev.EvWarm? ==> ev.id != id) && EvDrop(id) !in events ==>
              (Ask(w, id, t).1.Waits? <==> Unusable(w0.sys.cache[id], t))
  {
    var w1 := Happen(w0, EvAsk(id, t0));
    FlightGoesOn(w1, events, w, id);
    if EvDrop(id) !in events {
      RecordGoesOn(w1, events, w, id);
    }
  }

  /** That does happen: a stale record is served and refreshed in the background, a like drops the record while
      the refresh runs, and the next reader joins the refresh and is given an error when it lands. */
  lemma JoiningARefreshFails(w: World, id: Id, t: int)
    requires id in w.sys.cache && w.sys.cache[id].Hit? && t < w.sys.cache[id].evictAt
    requires Age(w.sys.cache[id].expireAt, t) == Stale && id !in w.flights && w.clock <= t
    ensures var w1 := Happen(w, EvAsk(id, t));
            var w2 := Happen(w1, EvDrop(id));
            var w3 := Happen(w2, EvAsk(id, t));
            && Ask(w, id, t).1 == Served(w.sys.cache[id].info) && Ask(w2, id, t).1 == Waits(false)
            && Possible(w3, EvRead(id)) && Possible(Happen(w3, EvRead(id)), EvWrite(id, t))
            && Received(Happen(w3, EvRead(id)), EvWrite(id, t)) == None
  {
  }
}
