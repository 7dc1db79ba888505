/** A video's publication status, changed by conditional updates that any number of requests race for. */
module VideoStatus {
  import opened Text

  datatype Status = Created | Published | Failed | Private

  /** One successful conditional update. */
  datatype Move = Move(from: Status, to: Status)

  /** A request on its way: choosing by a first read, about to run its conditional update, having won it and
      about to publish its event. */
  datatype Request =
    | Choosing(target: Status)
    | Moving(move: Move)
    | Won(move: Move)

  /** One video: its row, the requests in flight, and the record of what has happened. */
  datatype State = State(
    row: Option<Status>,
    requests: map<nat, Request>,
    moves: seq<Move>,
    createdEvents: nat)

  datatype Step =
    | Receive(r: nat, target: Status)
    | Choose(r: nat, filesReady: bool)
    | Update(r: nat)
    | Publish(r: nat)
    | Abort(r: nat)
    | Delete

  /** What UpdateStatus tries for a target, given the status it read: a private video that is asked to be
      published is being made public again. */
  function MoveFor(target: Status, read: Status): Move {
    match target
    case Published => if read == Private then Move(Private, Published) else Move(Created, Published)
    case Private => Move(Published, Private)
    case Failed => Move(Created, Failed)
    case Created => Move(Failed, Created)
  }

  predicate Enabled(s: State, step: Step) {
    match step
    case Receive(r, _) => r !in s.requests
    case Choose(r, _) => r in s.requests && s.requests[r].Choosing?
    case Update(r) => r in s.requests && s.requests[r].Moving?
    case Publish(r) => r in s.requests && s.requests[r].Won?
    case Abort(r) => r in s.requests
    case Delete => s.row.Some?
  }

  function Apply(s: State, step: Step): State
    requires Enabled(s, step)
  {
    match step
    case Receive(r, target) => s.(requests := s.requests[r := Choosing(target)])
    case Choose(r, filesReady) =>
      if s.row.None? then s.(requests := s.requests - {r})
      else
        var move := MoveFor(s.requests[r].target, s.row.value);
        if move == Move(Created, Published) && !filesReady then s.(requests := s.requests - {r})
        else s.(requests := s.requests[r := Moving(move)])
    case Update(r) =>
      var move := s.requests[r].move;
      if s.row == Some(move.from)
      then s.(row := Some(move.to), moves := s.moves + [move], requests := s.requests[r := Won(move)])
      else s.(requests := s.requests - {r})
    case Publish(r) =>
      s.(requests := s.requests - {r},
         createdEvents := s.createdEvents + if s.requests[r].move == Move(Created, Published) then 1 else 0)
    case Abort(r) => s.(requests := s.requests - {r})
    case Delete => s.(row := None)
  }

  const START := State(Some(Created), map[], [], 0)

  ghost predicate Run(s: State, steps: seq<Step>, end: State)
    decreases |steps|
  {
    if steps == [] then end == s
    else Enabled(s, steps[0]) && Run(Apply(s, steps[0]), steps[1..], end)
  }

  ghost predicate Reachable(s: State) { exists steps :: Run(START, steps, s) }

  predicate Legal(m: Move) {
    m in {Move(Created, Published), Move(Created, Failed), Move(Failed, Created), Move(Published, Private), Move(Private, Published)}
  }

  predicate Out(status: Status) { status == Published || status == Private }

  /** The moves follow on from each other, beginning at Created. */
  ghost predicate Chained(moves: seq<Move>) {
    && (forall i :: 0 <= i < |moves| ==> Legal(moves[i]))
    && (moves != [] ==> moves[0].from == Created)
    && (forall i :: 0 < i < |moves| ==> moves[i].from == moves[i - 1].to)
  }

  function Current(moves: seq<Move>): Status {
    if moves == [] then Created else moves[|moves| - 1].to
  }

  ghost predicate PublishOnce(s: State) {
    var first := Move(Created, Published);
    && s.createdEvents <= 1
    && (s.createdEvents == 1 ==> first in s.moves)
    && (forall r :: r in s.requests && s.requests[r] == Won(first) ==> first in s.moves && s.createdEvents == 0)
    && (forall r, q :: r in s.requests && q in s.requests && s.requests[r] == Won(first) && s.requests[q] == Won(first) ==> r == q)
  }

  ghost predicate Inv(s: State) {
    && Chained(s.moves) && PublishOnce(s)
    && (s.row.Some? ==> s.row.value == Current(s.moves))
    && (forall r :: r in s.requests && !s.requests[r].Choosing? ==> Legal(s.requests[r].move))
  }

  /** Once out, a video stays published or private. */
  lemma {:induction false} OutStaysOut(moves: seq<Move>, i: nat, j: nat)
    requires Chained(moves) && i <= j < |moves| && Out(moves[i].to)
    ensures Out(moves[j].to)
    decreases j
  {
    if i < j {
      OutStaysOut(moves, i, j - 1);
    }
  }

  lemma FirstPublishIsNew(moves: seq<Move>)
    requires Chained(moves) && Current(moves) == Created
    ensures Move(Created, Published) !in moves
  {
    forall i | 0 <= i < |moves| ensures moves[i] != Move(Created, Published) {
      if moves[i] == Move(Created, Published) {
        OutStaysOut(moves, i, |moves| - 1);
      }
    }
  }

  lemma UpdateKeepsInv(s: State, r: nat)
    requires Inv(s) && Enabled(s, Update(r))
    ensures Inv(Apply(s, Update(r)))
  {
    var s' := Apply(s, Update(r));
    var move := s.requests[r].move;
    if s.row == Some(move.from) {
      assert s'.moves[..|s.moves|] == s.moves;
      if move == Move(Created, Published) {
        FirstPublishIsNew(s.moves);
        assert s'.moves[|s.moves|] == move;
      } else {
        assert forall m :: m in s.moves ==> m in s'.moves;
      }
    }
  }

  lemma StepKeepsInv(s: State, step: Step)
    requires Inv(s) && Enabled(s, step)
    ensures Inv(Apply(s, step))
  {
    if step.Update? {
      UpdateKeepsInv(s, step.r);
    }
  }

  lemma {:induction false} RunKeepsInv(s: State, steps: seq<Step>, end: State)
    requires Inv(s) && Run(s, steps, end)
    ensures Inv(end)
    decreases |steps|
  {
    if steps != [] {
      StepKeepsInv(s, steps[0]);
      RunKeepsInv(Apply(s, steps[0]), steps[1..], end);
    }
  }

  lemma ReachableInv(s: State)
    requires Reachable(s)
    ensures Inv(s)
  {
    var steps :| Run(START, steps, s);
    RunKeepsInv(START, steps, s);
  }

  /** Over every interleaving only the five legal moves happen, each from where the last one ended, and once
      published or private a video is never anything else. */
  lemma OnlyLegalMoves(s: State, i: nat, j: nat)
    requires Reachable(s) && i <= j < |s.moves|
    ensures Legal(s.moves[j])
    ensures i + 1 == j ==> s.moves[j].from == s.moves[i].to
    ensures Out(s.moves[i].to) ==> Out(s.moves[j].to)
    ensures s.row.Some? && Out(s.moves[i].to) ==> Out(s.row.value)
  {
    ReachableInv(s);
    if Out(s.moves[i].to) {
      OutStaysOut(s.moves, i, j);
      OutStaysOut(s.moves, i, |s.moves| - 1);
    }
  }

  /** First publication is won at most once, and its event is published at most once, by the winner. */
  lemma PublishedOnce(s: State, i: nat, j: nat)
    requires Reachable(s)
    ensures s.createdEvents <= 1
    ensures s.createdEvents == 1 ==> Move(Created, Published) in s.moves
    ensures i < j < |s.moves| && s.moves[i] == Move(Created, Published) ==> s.moves[j] != Move(Created, Published)
  {
    ReachableInv(s);
    if i < j < |s.moves| && s.moves[i] == Move(Created, Published) {
      OutStaysOut(s.moves, i, j - 1);
    }
  }

  /** After first publication the moves alternate strictly: private, public, private, ... */
  lemma PrivacyAlternates(s: State, i: nat)
    requires Reachable(s) && i + 1 < |s.moves| && Out(s.moves[i].to)
    ensures s.moves[i].to == Published ==> s.moves[i + 1] == Move(Published, Private)
    ensures s.moves[i].to == Private ==> s.moves[i + 1] == Move(Private, Published)
  {
    ReachableInv(s);
    assert Legal(s.moves[i + 1]) && s.moves[i + 1].from == s.moves[i].to;
  }

  /** Who may still send VideoCreated, once it has been won. */
  ghost predicate NobodyToAnnounce(s: State) {
    && Out(Current(s.moves)) && (s.row.Some? ==> Out(s.row.value))
    && forall r :: r in s.requests ==> s.requests[r] != Won(Move(Created, Published))
  }

  lemma StaysUnannounced(s: State, step: Step)
    requires Inv(s) && NobodyToAnnounce(s) && Enabled(s, step)
    ensures NobodyToAnnounce(Apply(s, step)) && Apply(s, step).createdEvents == s.createdEvents
  {
    if step.Update? && s.row == Some(s.requests[step.r].move.from) {
      assert Legal(s.requests[step.r].move);
    }
  }

  lemma {:induction false} NeverAnnounced(s: State, steps: seq<Step>, end: State)
    requires Inv(s) && NobodyToAnnounce(s) && Run(s, steps, end)
    ensures end.createdEvents == s.createdEvents
    decreases |steps|
  {
    if steps != [] {
      StepKeepsInv(s, steps[0]);
      StaysUnannounced(s, steps[0]);
      NeverAnnounced(Apply(s, steps[0]), steps[1..], end);
    }
  }

  /** Whoever won the first publication decides for good whether VideoCreated is sent: once if it publishes, and never if
      it stops before. Stopping leaves the row as it is. */
  lemma TheWinnerAnnounces(s: State, r: nat, steps: seq<Step>, end: State)
    requires Reachable(s) && r in s.requests && s.requests[r] == Won(Move(Created, Published))
    ensures Run(Apply(s, Publish(r)), steps, end) ==> end.createdEvents == 1
    ensures Run(Apply(s, Abort(r)), steps, end) ==> end.createdEvents == 0
    ensures Apply(s, Abort(r)).row == s.row && Apply(s, Abort(r)).moves == s.moves
  {
    ReachableInv(s);
    OutSinceFirst(s);
    StepKeepsInv(s, Publish(r));
    StepKeepsInv(s, Abort(r));
    if Run(Apply(s, Publish(r)), steps, end) { NeverAnnounced(Apply(s, Publish(r)), steps, end); }
    if Run(Apply(s, Abort(r)), steps, end) { NeverAnnounced(Apply(s, Abort(r)), steps, end); }
  }

  lemma OutSinceFirst(s: State)
    requires Inv(s) && Move(Created, Published) in s.moves
    ensures Out(Current(s.moves)) && (s.row.Some? ==> Out(s.row.value))
  {
    var i :| 0 <= i < |s.moves| && s.moves[i] == Move(Created, Published);
    OutStaysOut(s.moves, i, |s.moves| - 1);
  }
}
